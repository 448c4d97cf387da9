/** Wire sequence numbers: the wraparound order of a 16-bit counter that counts modulo 65535,
    and the slot that a sequence occupies in a ring of 1024 entries.

    A sender numbers its packets 0, 1, 2, ... without bound; `Wire(n)` is the number that
    packet `n` carries.  The lemmas say when arithmetic on wire numbers agrees with arithmetic
    on the unbounded ones. */
module Sequence {

  type U16 = n: int | 0 <= n < 0x1_0000
  type U32 = n: int | 0 <= n < 0x1_0000_0000

  /** A receive window; the source subtracts it as a signed 32-bit number. */
  type WindowSize = n: int | 0 <= n < 0x8000_0000

  /** One more than the largest sequence that `Next` produces. */
  const MODULUS := 65535

  const RING_SIZE := 1024

  /** Forward distances up to this one never share a ring slot. */
  const MAX_SPAN := 1022

  /** Sequences up to this far apart compare as their unbounded numbers do. */
  const MAX_AGE := 32766

  predicate IsGreaterThan(s1: U16, s2: U16) {
    (s1 > s2 && s1 - s2 <= 32768) || (s1 < s2 && s2 - s1 > 32768)
  }

  predicate IsEqualToOrLessThan(s1: U16, s2: U16) {
    s1 == s2 || IsGreaterThan(s2, s1)
  }

  function Next(s: U16): U16 {
    if s >= 65534 then 0 else s + 1
  }

  function Previous(s: U16): U16 {
    if s == 0 then 65534 else s - 1
  }

  function Slot(s: U16): (slot: nat)
    ensures slot < RING_SIZE
  {
    s % RING_SIZE
  }

  function Wire(n: int): (s: U16)
    ensures s < MODULUS
  {
    n % MODULUS
  }

  function RingSlot(n: int): nat {
    Slot(Wire(n))
  }

  /** The largest number not above `newest` that travels as `s`. */
  function Unwire(newest: int, s: U16): (n: int)
    ensures n <= newest < n + MODULUS
    ensures s < MODULUS ==> Wire(n) == s
  {
    newest - (newest - s) % MODULUS
  }

  lemma UnwireRecent(newest: int, n: int)
    requires n <= newest < n + MODULUS
    ensures Unwire(newest, Wire(n)) == n
  {
    WireInjective(Unwire(newest, Wire(n)), n);
  }

  /** Stepping a wire number steps the number it stands for, also over the wrap. */
  lemma WireStep(n: int)
    ensures Next(Wire(n)) == Wire(n + 1)
    ensures Previous(Wire(n)) == Wire(n - 1)
  {
  }

  lemma WirePeriod(n: int)
    ensures Wire(n + MODULUS) == Wire(n)
  {
  }

  lemma WireInjective(x: int, y: int)
    requires Wire(x) == Wire(y)
    requires -MODULUS < x - y < MODULUS
    ensures x == y
  {
  }

  /** On distinct sequences exactly one of the two comparisons holds. */
  lemma OrderIsTotal(s1: U16, s2: U16)
    requires s1 != s2
    ensures IsGreaterThan(s1, s2) != IsGreaterThan(s2, s1)
  {
  }

  /** Exactly when a later packet compares as greater: always up to MAX_AGE ahead, never from
      32769 ahead, and in between according to whether the counter wrapped. */
  lemma OrderExact(earlier: int, later: int)
    requires 0 < later - earlier < MODULUS
    ensures IsGreaterThan(Wire(later), Wire(earlier)) <==>
            later - earlier <= if Wire(later) > Wire(earlier) then 32768 else MAX_AGE
  {
    assert Wire(later) == Wire(earlier) + (later - earlier)
        || Wire(later) == Wire(earlier) + (later - earlier) - MODULUS;
  }

  /** The wraparound order agrees with the order of the unbounded numbers. */
  lemma OrderIsFaithful(x: int, y: int)
    requires -MAX_AGE <= x - y <= MAX_AGE
    ensures IsGreaterThan(Wire(x), Wire(y)) <==> x > y
    ensures IsEqualToOrLessThan(Wire(x), Wire(y)) <==> x <= y
  {
    if x > y {
      OrderExact(y, x);
    } else if x < y {
      OrderExact(x, y);
      OrderIsTotal(Wire(x), Wire(y));
    }
    if Wire(x) == Wire(y) { WireInjective(x, y); }
  }

  /** The numbers one further apart than MAX_AGE are the first to compare the wrong way. */
  lemma OrderBoundIsTight()
    ensures !IsGreaterThan(Wire(MODULUS), Wire(MODULUS - MAX_AGE - 1))
  {
  }

  /** Which pairs of sequences share a ring slot: within 1023 of each other, only those exactly
      1023 apart with the wrap between them. */
  lemma SlotCollision(n: int, d: int)
    requires 0 < d <= 1023
    ensures RingSlot(n) == RingSlot(n + d) <==> d == 1023 && Wire(n) + d >= MODULUS
  {
    var s := Wire(n);
    if s + d < MODULUS {
      assert Wire(n + d) == s + d;
      SlotsDiffer(s, d);
    } else {
      assert Wire(n + d) == s + d - MODULUS;
      SlotsAcrossWrap(s, d);
    }
  }

  lemma SlotsDiffer(s: U16, d: int)
    requires 0 < d <= 1023 && s + d < MODULUS
    ensures Slot(s) != Slot(s + d)
  {
  }

  lemma SlotsAcrossWrap(s: U16, d: int)
    requires 0 < d <= 1023 && s < MODULUS <= s + d
    ensures Slot(s) == Slot(s + d - MODULUS) <==> d == 1023
  {
    assert s + d - MODULUS < 1023;
    assert Slot(s + d - MODULUS) == s + d - MODULUS;
    assert s >= 63 * 1024 && Slot(s) == s - 63 * 1024;
  }

  /** Packets within MAX_SPAN of each other occupy different slots. */
  lemma SlotInjective(m: int, n: int)
    requires RingSlot(m) == RingSlot(n)
    requires -MAX_SPAN <= m - n <= MAX_SPAN
    ensures m == n
  {
    if m < n {
      SlotCollision(m, n - m);
    } else if n < m {
      SlotCollision(n, m - n);
    }
  }

  /** How many packets on the slot of `n` is used again: 1024, or what is left of the counter's range and
      the slot itself when the counter wraps first. */
  function Turn(n: int): (d: nat)
    ensures 1023 <= d < 2048
  {
    if Wire(n) + RING_SIZE < MODULUS then RING_SIZE else MODULUS - Wire(n) + Slot(Wire(n))
  }

  lemma TurnIsExact(n: int, d: int)
    requires 0 < d <= Turn(n)
    ensures RingSlot(n + d) == RingSlot(n) <==> d == Turn(n)
  {
    var s := Wire(n);
    if s + d < MODULUS {
      assert Wire(n + d) == s + d;
      if d <= 1023 { SlotsDiffer(s, d); }
    } else {
      assert Wire(n + d) == s + d - MODULUS;
      assert Slot(s + d - MODULUS) == s + d - MODULUS;
    }
  }
}
