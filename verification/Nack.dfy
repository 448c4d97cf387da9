/** A nack names a missing sequence and, by 32 flag bits, which of the 32 sequences before it
    are missing too (src/tachyon/nack.rs). */
module Nacks {
  import opened Sequence

  const FLAG_COUNT := 32

  datatype Nack = Nack(start: U16, flags: U32, nackedCount: nat, sentCount: nat)

  const DEFAULT_NACK := Nack(0, 0, 0, 0)

  // ---- flag bits ----

  function Pow2(k: nat): nat {
    if k == 0 then 1 else 2 * Pow2(k - 1)
  }

  /** Whether `flags & (1 << index)` is nonzero. */
  predicate Bit(flags: nat, index: nat) {
    if index == 0 then flags % 2 == 1 else Bit(flags / 2, index - 1)
  }

  /** `flags | (1 << index)`, or `flags & !(1 << index)`. */
  function WithBit(flags: nat, index: nat, value: bool): nat {
    if index == 0 then flags - flags % 2 + (if value then 1 else 0)
    else 2 * WithBit(flags / 2, index - 1, value) + flags % 2
  }

  lemma {:induction false} BitOfWithBit(flags: nat, index: nat, value: bool, other: nat)
    ensures Bit(WithBit(flags, index, value), other) == if other == index then value else Bit(flags, other)
  {
    if index > 0 && other > 0 {
      BitOfWithBit(flags / 2, index - 1, value, other - 1);
      assert WithBit(flags, index, value) / 2 == WithBit(flags / 2, index - 1, value);
    }
  }

  /** Bit `index` is the one whose value is `1 << index`. */
  lemma {:induction false} OneBit(index: nat, other: nat)
    ensures Bit(Pow2(index), other) <==> other == index
    decreases index
  {
    if index == 0 {
      NoBit(other);
    } else if other > 0 {
      OneBit(index - 1, other - 1);
      assert Pow2(index) / 2 == Pow2(index - 1);
    }
  }

  lemma {:induction false} NoBit(index: nat)
    ensures !Bit(0, index) && (Bit(1, index) <==> index == 0)
    decreases index
  {
    if index > 0 { NoBit(index - 1); }
  }

  lemma {:induction false} WithBitFits(flags: nat, index: nat, value: bool, width: nat)
    requires index < width && flags < Pow2(width)
    ensures WithBit(flags, index, value) < Pow2(width)
  {
    var half := Pow2(width - 1);
    assert Pow2(width) == 2 * half;
    if index > 0 {
      Halved(flags, half);
      WithBitFits(flags / 2, index - 1, value, width - 1);
    } else {
      Halved(flags, half);
    }
  }

  lemma Halved(flags: nat, half: nat)
    requires flags < 2 * half
    ensures flags / 2 < half && flags == 2 * (flags / 2) + flags % 2
  {
  }

  lemma Pow2Of32()
    ensures Pow2(32) == 0x1_0000_0000
  {
    assert Pow2(8) == 256;
    assert Pow2(16) == 65536;
    assert Pow2(24) == 256 * 65536;
  }

  function SetBits(nack: Nack, index: nat, value: bool): (r: Nack)
    requires index < FLAG_COUNT
    ensures forall i: nat :: Bit(r.flags, i) == if i == index then value else Bit(nack.flags, i)
    ensures r == nack.(flags := r.flags)
  {
    Pow2Of32();
    WithBitFits(nack.flags, index, value, 32);
    assert forall i: nat :: Bit(WithBit(nack.flags, index, value), i)
                         == if i == index then value else Bit(nack.flags, i) by {
      forall i: nat { BitOfWithBit(nack.flags, index, value, i); }
    }
    nack.(flags := WithBit(nack.flags, index, value))
  }

  // ---- the sequences a nack names ----

  /** The sequence `k` places before `s`. */
  function Before(s: U16, k: int): U16 {
    Wire(s - k)
  }

  function Bits(flags: U32): (bits: seq<bool>)
    ensures |bits| == FLAG_COUNT
    ensures forall i :: 0 <= i < FLAG_COUNT ==> bits[i] == Bit(flags, i)
  {
    seq(FLAG_COUNT, i requires i >= 0 => Bit(flags, i))
  }

  /** The marked sequences among `s` and those before it, one mark for each. */
  function Marked(marks: seq<bool>, s: U16): seq<U16> {
    if marks == [] then []
    else (if marks[0] then [s] else []) + Marked(marks[1..], Previous(s))
  }

  function Nacked(nack: Nack): seq<U16> {
    [nack.start] + Marked(Bits(nack.flags), Previous(nack.start))
  }

  /** All sequences named by a list of nacks, in list order. */
  function Expand(nacks: seq<Nack>): seq<U16> {
    if nacks == [] then [] else Nacked(nacks[0]) + Expand(nacks[1..])
  }

  lemma {:induction false} ExpandAppend(nacks: seq<Nack>, nack: Nack)
    ensures Expand(nacks + [nack]) == Expand(nacks) + Nacked(nack)
  {
    if nacks == [] {
      assert nacks + [nack] == [nack];
      assert Expand([nack]) == Nacked(nack) + Expand([]);
    } else {
      ExpandAppend(nacks[1..], nack);
      var first, rest, last := Nacked(nacks[0]), Expand(nacks[1..]), Nacked(nack);
      assert (nacks + [nack])[1..] == nacks[1..] + [nack];
      assert Expand(nacks + [nack]) == first + (rest + last);
      assert first + (rest + last) == (first + rest) + last;
    }
  }

  method GetFlagged(nack: Nack, sequences: seq<U16>) returns (r: seq<U16>)
    ensures r == sequences + Marked(Bits(nack.flags), Previous(nack.start))
  {
    r := sequences;
    var s := Previous(nack.start);
    ghost var bits := Bits(nack.flags);
    for i := 0 to FLAG_COUNT
      invariant r + Marked(bits[i..], s) == sequences + Marked(bits, Previous(nack.start))
    {
      assert bits[i..][1..] == bits[i + 1..];
      if Bit(nack.flags, i) {
        r := r + [s];
      }
      s := Previous(s);
    }
  }

  method GetNacked(nack: Nack, sequences: seq<U16>) returns (r: seq<U16>)
    ensures r == sequences + Nacked(nack)
  {
    r := GetFlagged(nack, sequences + [nack.start]);
  }

  /** Membership in a marked list, by position. */
  lemma {:induction false} MarkedMembers(marks: seq<bool>, s: U16, sequence: U16)
    requires s < MODULUS
    ensures sequence in Marked(marks, s) <==>
            exists j :: 0 <= j < |marks| && marks[j] && sequence == Before(s, j)
  {
    if marks != [] {
      var rest, s' := marks[1..], Previous(s);
      MarkedMembers(rest, s', sequence);
      assert Before(s, 0) == s;
      forall j | 0 <= j < |rest| ensures rest[j] == marks[j + 1] && Before(s', j) == Before(s, j + 1) {
      }
      if j :| 0 <= j < |marks| && marks[j] && sequence == Before(s, j) {
        if j > 0 { assert rest[j - 1] && sequence == Before(s', j - 1); }
      }
    }
  }

  lemma BeforeInjective(s: U16, j: int, k: int)
    requires Before(s, j) == Before(s, k)
    requires -MODULUS < j - k < MODULUS
    ensures j == k
  {
    WireInjective(s - j, s - k);
  }

  /** A sequence among the 32 before the start is named exactly when its flag is set. */
  lemma FlagDecides(nack: Nack, index: nat)
    requires index < FLAG_COUNT
    ensures var p := Previous(nack.start);
            Before(p, index) in Marked(Bits(nack.flags), p) <==> Bit(nack.flags, index)
  {
    var p, bits := Previous(nack.start), Bits(nack.flags);
    MarkedMembers(bits, p, Before(p, index));
    if Bit(nack.flags, index) {
      assert bits[index];
    } else if j :| 0 <= j < |bits| && bits[j] && Before(p, index) == Before(p, j) {
      BeforeInjective(p, index, j);
    }
  }

  /** What `is_flagged` answers: scan back from the start and, at `sequence`, read its flag. */
  method IsFlagged(nack: Nack, sequence: U16) returns (r: bool)
    ensures r <==> sequence in Marked(Bits(nack.flags), Previous(nack.start))
  {
    ghost var p := Previous(nack.start);
    var s := Previous(nack.start);
    for i := 0 to FLAG_COUNT
      invariant s == Before(p, i)
      invariant forall j :: 0 <= j < i ==> sequence != Before(p, j)
    {
      if s == sequence {
        FlagDecides(nack, i);
        return Bit(nack.flags, i);
      }
      WireStep(p - i);
      s := Previous(s);
    }
    MarkedMembers(Bits(nack.flags), p, sequence);
    return false;
  }

  method IsNacked(nack: Nack, sequence: U16) returns (r: bool)
    ensures r <==> sequence in Nacked(nack)
  {
    if nack.start == sequence {
      return true;
    }
    r := IsFlagged(nack, sequence);
  }

  /** Whether `s` is one of the 32 sequences before the start. */
  predicate InReach(nack: Nack, s: U16) {
    exists i :: 0 <= i < FLAG_COUNT && s == Before(Previous(nack.start), i)
  }

  /** `set_flagged` adds `sequence` to the named ones when it lies in the 32 before the start, and
      otherwise changes nothing. */
  method SetFlagged(nack: Nack, sequence: U16) returns (r: Nack)
    ensures r == nack.(flags := r.flags)
    ensures forall s :: s in Nacked(r) <==> s in Nacked(nack) || (s == sequence && InReach(nack, s))
  {
    ghost var p := Previous(nack.start);
    r := nack;
    var s := Previous(nack.start);
    for i := 0 to FLAG_COUNT
      invariant s == Before(p, i) && r == nack
      invariant forall j :: 0 <= j < i ==> sequence != Before(p, j)
    {
      if s == sequence {
        r := SetBits(nack, i, true);
        NackedAfterSet(nack, r, i);
        return;
      }
      WireStep(p - i);
      s := Previous(s);
    }
  }

  lemma NackedAfterSet(nack: Nack, r: Nack, index: nat)
    requires index < FLAG_COUNT
    requires r.start == nack.start
    requires forall i: nat :: Bit(r.flags, i) == (i == index || Bit(nack.flags, i))
    ensures forall s :: s in Nacked(r) <==> s in Nacked(nack) || s == Before(Previous(nack.start), index)
  {
    var p := Previous(nack.start);
    forall s ensures s in Nacked(r) <==> s in Nacked(nack) || s == Before(p, index) {
      MarkedMembers(Bits(r.flags), p, s);
      MarkedMembers(Bits(nack.flags), p, s);
      if s == Before(p, index) { assert Bits(r.flags)[index]; }
    }
  }
}
