/** The fixed-width byte form of nack lists (src/tachyon/nack.rs). */
module NackCodec {
  import opened Sequence
  import opened IntBuffers
  import opened Nacks

  const NACK_SIZE := 6

  function NackBytes(nack: Nack): Bytes {
    U16Bytes(nack.start) + U32Bytes(nack.flags)
  }

  function ListBytes(nacks: seq<Nack>): (bytes: Bytes)
    ensures |bytes| == |nacks| * NACK_SIZE
  {
    if nacks == [] then [] else NackBytes(nacks[0]) + ListBytes(nacks[1..])
  }

  /** The nack that stands in `data` at `at`; its counters are not part of the byte form. */
  function NackAt(data: Bytes, at: nat): Nack
    requires at + NACK_SIZE <= |data|
  {
    DEFAULT_NACK.(start := U16At(data, at), flags := U32At(data, at + 2))
  }

  /** The sequences named by `count` nacks standing in `data` from `at` on. */
  function NackedAt(data: Bytes, at: nat, count: nat): seq<U16>
    requires at + count * NACK_SIZE <= |data|
    decreases count
  {
    if count == 0 then [] else Nacked(NackAt(data, at)) + NackedAt(data, at + NACK_SIZE, count - 1)
  }

  lemma {:induction false} ListAppend(nacks: seq<Nack>, nack: Nack)
    ensures ListBytes(nacks + [nack]) == ListBytes(nacks) + NackBytes(nack)
  {
    if nacks == [] {
      assert nacks + [nack] == [nack];
      assert ListBytes([nack]) == NackBytes(nack) + ListBytes([]);
    } else {
      ListAppend(nacks[1..], nack);
      assert (nacks + [nack])[1..] == nacks[1..] + [nack];
      assert NackBytes(nacks[0]) + (ListBytes(nacks[1..]) + NackBytes(nack))
          == (NackBytes(nacks[0]) + ListBytes(nacks[1..])) + NackBytes(nack);
    }
  }

  lemma NackRoundTrip(data: Bytes, at: nat, nack: Nack)
    requires Holds(data, at, NackBytes(nack))
    ensures NackAt(data, at) == DEFAULT_NACK.(start := nack.start, flags := nack.flags)
  {
    HoldsConcat(data, at, U16Bytes(nack.start), U32Bytes(nack.flags));
    U16RoundTrip(data, at, nack.start);
    U32RoundTrip(data, at + 2, nack.flags);
  }

  /** Reading nacks where a list was written names what the list names, in list order. */
  lemma {:induction false} ListRoundTrip(data: Bytes, at: nat, nacks: seq<Nack>)
    requires Holds(data, at, ListBytes(nacks))
    ensures at + |nacks| * NACK_SIZE <= |data|
    ensures NackedAt(data, at, |nacks|) == Expand(nacks)
    decreases nacks
  {
    if nacks != [] {
      HoldsConcat(data, at, NackBytes(nacks[0]), ListBytes(nacks[1..]));
      NackRoundTrip(data, at, nacks[0]);
      ListRoundTrip(data, at + NACK_SIZE, nacks[1..]);
    }
  }

  /** Membership in a list of nacks is membership in one of them. */
  lemma {:induction false} ExpandMembers(nacks: seq<Nack>, s: U16)
    ensures s in Expand(nacks) <==> exists nack :: nack in nacks && s in Nacked(nack)
  {
    if nacks != [] {
      ExpandMembers(nacks[1..], s);
    }
  }

  lemma ListStep(head: Bytes, nacks: seq<Nack>, i: nat)
    requires i < |nacks|
    ensures (head + ListBytes(nacks[..i])) + NackBytes(nacks[i]) == head + ListBytes(nacks[..i + 1])
  {
    assert nacks[..i + 1] == nacks[..i] + [nacks[i]];
    ListAppend(nacks[..i], nacks[i]);
  }

  method Write(nacks: seq<Nack>, data: array<Byte>, position: nat) returns (end: nat)
    requires position + 1 + |nacks| * NACK_SIZE <= data.Length
    modifies data
    ensures if nacks == [] then end == 0 && data[..] == old(data[..])
            else end == position + 1 + |nacks| * NACK_SIZE &&
                 data[..] == Overwrite(old(data[..]), position, [|nacks| % 256] + ListBytes(nacks))
  {
    if |nacks| == 0 {
      return 0;
    }
    ghost var before: Bytes, head: Bytes := data[..], [|nacks| % 256];
    var buffer := new IntBuffer(position);
    buffer.WriteU8(|nacks| % 256, data);
    for i := 0 to |nacks|
      invariant fresh(buffer) && buffer.index == position + 1 + i * NACK_SIZE
      invariant data[..] == Overwrite(before, position, head + ListBytes(nacks[..i]))
    {
      WriteNack(nacks[i], buffer, data);
      OverwriteTwice(before, position, head + ListBytes(nacks[..i]), NackBytes(nacks[i]));
      ListStep(head, nacks, i);
    }
    assert nacks[..|nacks|] == nacks;
    end := buffer.index;
  }

  method WriteNack(nack: Nack, buffer: IntBuffer, data: array<Byte>)
    requires buffer.index + NACK_SIZE <= data.Length
    modifies buffer, data
    ensures buffer.index == old(buffer.index) + NACK_SIZE
    ensures data[..] == Overwrite(old(data[..]), old(buffer.index), NackBytes(nack))
  {
    ghost var before, at := data[..], buffer.index;
    buffer.WriteU16(nack.start, data);
    buffer.WriteU32(nack.flags, data);
    OverwriteTwice(before, at, U16Bytes(nack.start), U32Bytes(nack.flags));
  }

  method Read(sequences: seq<U16>, data: Bytes, position: nat) returns (r: seq<U16>)
    requires position < |data| && position + 1 + data[position] * NACK_SIZE <= |data|
    ensures r == sequences + NackedAt(data, position + 1, data[position])
  {
    var buffer := new IntBuffer(position);
    var count: nat := buffer.ReadU8(data);
    r := ReadList(sequences, buffer, data, count);
  }

  method ReadList(sequences: seq<U16>, buffer: IntBuffer, data: Bytes, count: nat) returns (r: seq<U16>)
    requires buffer.index + count * NACK_SIZE <= |data|
    modifies buffer
    ensures r == sequences + NackedAt(data, old(buffer.index), count)
  {
    r := sequences;
    ghost var all := sequences + NackedAt(data, buffer.index, count);
    for i := 0 to count
      invariant buffer.index + (count - i) * NACK_SIZE <= |data|
      invariant r + NackedAt(data, buffer.index, count - i) == all
    {
      NackedStep(r, data, buffer.index, count - i);
      r := ReadOne(r, buffer, data);
    }
  }

  method ReadOne(sequences: seq<U16>, buffer: IntBuffer, data: Bytes) returns (r: seq<U16>)
    requires buffer.index + NACK_SIZE <= |data|
    modifies buffer
    ensures buffer.index == old(buffer.index) + NACK_SIZE && r == sequences + Nacked(NackAt(data, old(buffer.index)))
  {
    var nack := ReadNack(buffer, data);
    r := GetNacked(nack, sequences);
  }

  method ReadNack(buffer: IntBuffer, data: Bytes) returns (nack: Nack)
    requires buffer.index + NACK_SIZE <= |data|
    modifies buffer
    ensures buffer.index == old(buffer.index) + NACK_SIZE
    ensures nack == NackAt(data, old(buffer.index))
  {
    var start := buffer.ReadU16(data);
    var flags := buffer.ReadU32(data);
    nack := DEFAULT_NACK.(start := start, flags := flags);
  }

  lemma NackedStep(before: seq<U16>, data: Bytes, at: nat, count: nat)
    requires count > 0 && at + count * NACK_SIZE <= |data|
    ensures (before + Nacked(NackAt(data, at))) + NackedAt(data, at + NACK_SIZE, count - 1)
         == before + NackedAt(data, at, count)
  {
  }

  /** Writing 1 to 255 nacks and reading them back appends exactly the sequences they name, and a
      sequence is among them exactly when one of the nacks names it. */
  method WriteThenRead(nacks: seq<Nack>, data: array<Byte>, position: nat) returns (sequences: seq<U16>)
    requires 1 <= |nacks| <= 255 && position + 1 + |nacks| * NACK_SIZE <= data.Length
    modifies data
    ensures sequences == Expand(nacks)
    ensures forall s :: s in sequences <==> exists nack :: nack in nacks && s in Nacked(nack)
  {
    ghost var before := data[..];
    var end := Write(nacks, data, position);
    OverwriteHolds(before, position, [|nacks| % 256] + ListBytes(nacks));
    ListRead(data[..], nacks, position);
    sequences := Read([], data[..], position);
    forall s { ExpandMembers(nacks, s); }
  }

  lemma ListRead(data: Bytes, nacks: seq<Nack>, position: nat)
    requires 1 <= |nacks| <= 255
    requires Holds(data, position, [|nacks| % 256] + ListBytes(nacks))
    ensures position + 1 + |nacks| * NACK_SIZE <= |data|
    ensures data[position] == |nacks| && NackedAt(data, position + 1, |nacks|) == Expand(nacks)
  {
    var count: Byte := |nacks|;
    assert count == |nacks| % 256;
    SplitHead(data, position, count, ListBytes(nacks));
    ListRoundTrip(data, position + 1, nacks);
  }

  lemma SplitHead(data: Bytes, at: nat, head: Byte, rest: Bytes)
    requires Holds(data, at, [head] + rest)
    ensures data[at] == head && Holds(data, at + 1, rest)
  {
    HoldsConcat(data, at, [head], rest);
    HoldsByte(data, at, head);
  }

  // ---- the single nack of a reliable message ----

  /** What `read_single` appends for the nack at `at`. */
  function SingleAt(data: Bytes, at: nat): seq<U16>
    requires at + NACK_SIZE <= |data|
  {
    if U16At(data, at) == 0 then [] else Nacked(NackAt(data, at))
  }

  method ReadSingle(sequences: seq<U16>, data: Bytes, position: nat) returns (r: seq<U16>)
    requires position + NACK_SIZE <= |data|
    ensures r == sequences + SingleAt(data, position)
  {
    var buffer := new IntBuffer(position);
    var start := buffer.ReadU16(data);
    if start == 0 {
      return sequences;
    }
    var flags := buffer.ReadU32(data);
    r := GetNacked(DEFAULT_NACK.(start := start, flags := flags), sequences);
  }

  /** A single nack survives its round trip exactly when it does not start at sequence 0. */
  lemma SingleRoundTrip(data: Bytes, at: nat, nack: Nack)
    requires Holds(data, at, NackBytes(nack))
    ensures SingleAt(data, at) == Nacked(nack) <==> nack.start != 0
  {
    NackRoundTrip(data, at, nack);
  }

  /** For instance, the nack for sequence 0 alone reads back as nothing. */
  lemma SingleFromZeroIsLost(nack: Nack)
    requires nack == DEFAULT_NACK
    ensures SingleAt(NackBytes(nack), 0) == [] && 0 in Nacked(nack)
  {
    var data := NackBytes(nack);
    assert Holds(data, 0, data);
    SingleRoundTrip(data, 0, nack);
    NackRoundTrip(data, 0, nack);
    StartIsNacked(nack);
  }

  lemma StartIsNacked(nack: Nack)
    ensures nack.start in Nacked(nack)
  {
  }
}
