/** Packets keep their numbers and contents when more messages are sent. */
module Numbering {
  import opened Sequence
  import opened IntBuffers
  import opened ChannelSpec
  import opened FragmentSpec
  import opened Delivery
  import opened DeskProofs

  /** All packets of the items, in order. */
  function Packets(channel: Byte, items: seq<Item>): seq<Bytes> {
    if items == [] then []
    else
      var before := items[..|items| - 1];
      Packets(channel, before) + NewPackets(channel, before, items[|items| - 1])
  }

  /** The packets of one more item. */
  function NewPackets(channel: Byte, items: seq<Item>, item: Item): seq<Bytes> {
    match item
    case Plain(body) => [Message(channel, Wire(Total(items) + 1), body)]
    case Split(group, body) => Fragments(channel, group, Keys(Total(items) + 1, |Chunks(body)|), Chunks(body))
  }

  lemma {:induction false} FirstStable(items: seq<Item>, item: Item, j: nat)
    requires j <= |items|
    ensures First(items + [item], j) == First(items, j)
    decreases j
  {
    if j > 0 { FirstStable(items, item, j - 1); }
  }

  lemma {:induction false} TotalGrows(items: seq<Item>, item: Item)
    ensures Total(items + [item]) == Total(items) + Size(item)
    ensures First(items + [item], |items|) == Total(items) + 1
  {
    FirstStable(items, item, |items|);
  }

  /** A packet already sent is not changed by sending more. */
  lemma {:induction false} PacketStable(channel: Byte, items: seq<Item>, item: Item, n: int)
    requires 1 <= n <= Total(items)
    ensures Packet(channel, items + [item], n) == Packet(channel, items, n)
  {
    OwnerOf(items, n);
    var j := Owner(items, n);
    FirstStable(items, item, j);
    FirstStable(items, item, j + 1);
    OwnerIs(items + [item], j, n);
  }

  lemma {:induction false} NewPacketIs(channel: Byte, items: seq<Item>, item: Item, n: int)
    requires Total(items) < n <= Total(items) + Size(item)
    ensures |NewPackets(channel, items, item)| == Size(item)
    ensures Packet(channel, items + [item], n) == NewPackets(channel, items, item)[n - Total(items) - 1]
  {
    TotalGrows(items, item);
    OwnerIs(items + [item], |items|, n);
  }

  lemma {:induction false} PacketsAppend(channel: Byte, items: seq<Item>, item: Item)
    ensures Packets(channel, items + [item]) == Packets(channel, items) + NewPackets(channel, items, item)
  {
    assert (items + [item])[..|items|] == items;
  }

  lemma SizeOfNew(channel: Byte, items: seq<Item>, item: Item)
    ensures |NewPackets(channel, items, item)| == Size(item)
  {
  }

  lemma {:induction false} CountPackets(channel: Byte, items: seq<Item>)
    ensures |Packets(channel, items)| == Total(items)
  {
    if items != [] {
      var before, item := items[..|items| - 1], items[|items| - 1];
      assert items == before + [item];
      CountPackets(channel, before);
      SizeOfNew(channel, before, item);
      TotalGrows(before, item);
    }
  }

  /** The list holds each packet at its number. */
  lemma {:induction false} PacketIs(channel: Byte, items: seq<Item>, n: int)
    requires 1 <= n <= Total(items)
    ensures |Packets(channel, items)| == Total(items) && Packets(channel, items)[n - 1] == Packet(channel, items, n)
    decreases items
  {
    var before, item := items[..|items| - 1], items[|items| - 1];
    assert items == before + [item];
    CountPackets(channel, items);
    CountPackets(channel, before);
    TotalGrows(before, item);
    if n <= Total(before) {
      PacketIs(channel, before, n);
      PacketStable(channel, before, item, n);
    } else {
      NewPacketIs(channel, before, item, n);
    }
  }

  /** A run of the receiving end does not depend on messages sent later. */
  lemma {:induction false} RunStable(channel: Byte, ordered: bool, window: WindowSize, items: seq<Item>, item: Item,
                                     steps: seq<Step>)
    requires Existing(items, steps)
    ensures Existing(items + [item], steps)
    ensures Run(channel, ordered, window, items + [item], steps) == Run(channel, ordered, window, items, steps)
    decreases steps
  {
    TotalGrows(items, item);
    if steps != [] {
      var before, step := steps[..|steps| - 1], steps[|steps| - 1];
      RunStable(channel, ordered, window, items, item, before);
      if step.Arrive? { PacketStable(channel, items, item, step.n); }
    }
  }

  // ---- group ids ----

  /** How many of the items are fragmented. */
  function Splits(items: seq<Item>): nat {
    if items == [] then 0 else Splits(items[..|items| - 1]) + if items[|items| - 1].Split? then 1 else 0
  }

  /** A body that is too long for one packet is split, under the next group id. */
  function ItemOf(items: seq<Item>, body: Bytes): Item {
    if |body| < FRAGMENT_SIZE then Plain(body) else Split(GroupId(Splits(items) + 1), body)
  }

  /** Fragmented items carry the group ids in turn. */
  predicate Numbered(items: seq<Item>) {
    forall j :: 0 <= j < |items| && items[j].Split? ==> items[j].group == GroupId(Splits(items[..j]) + 1)
  }

  lemma {:induction false} SplitsGrow(items: seq<Item>, i: nat, j: nat)
    requires i <= j <= |items|
    ensures Splits(items[..i]) <= Splits(items[..j])
    ensures i < j && items[i].Split? ==> Splits(items[..i]) < Splits(items[..j])
    decreases j - i
  {
    if i < j {
      SplitsGrow(items, i, j - 1);
      assert items[..j][..j - 1] == items[..j - 1];
    }
  }

  lemma {:induction false} NumberedStep(items: seq<Item>, body: Bytes)
    requires Numbered(items)
    ensures Numbered(items + [ItemOf(items, body)])
    ensures Splits(items + [ItemOf(items, body)]) == Splits(items) + if |body| < FRAGMENT_SIZE then 0 else 1
  {
    var more := items + [ItemOf(items, body)];
    assert more[..|items|] == items;
    forall j | 0 <= j < |items| ensures more[..j] == items[..j] {}
  }

  /** Up to 65533 fragmented messages have different group ids. */
  lemma {:induction false} NumberedIsProper(items: seq<Item>)
    requires Numbered(items) && Splits(items) <= 65533
    requires forall j :: 0 <= j < |items| ==> items[j].body != [] && Size(items[j]) <= 65535
    ensures Proper(items)
  {
    forall i, j | 0 <= i < j < |items| && items[i].Split? && items[j].Split? ensures items[i].group != items[j].group {
      SplitsGrow(items, i, j);
      SplitsGrow(items, j, |items|);
      assert items[..|items|] == items;
      GroupIdsDiffer(Splits(items[..i]) + 1, Splits(items[..j]) + 1);
    }
  }
}
