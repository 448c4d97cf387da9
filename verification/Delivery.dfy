/** Plain and fragmented messages through one channel end: what the application takes, first as the
    channel computes it (`Port`), then by packet numbers alone (`Desk`). */
module Delivery {
  import opened Sequence
  import opened IntBuffers
  import opened ChannelSpec
  import opened FragmentSpec
  import opened Inboxes
  import Runs = ReceiverRuns
  import S = ReceiverSpec

  /** A message of the sending application: sent whole, or split under a group id. */
  datatype Item = Plain(body: Bytes) | Split(group: U16, body: Bytes)

  function Size(item: Item): nat {
    if item.Plain? then 1 else |Chunks(item.body)|
  }

  /** The number of the first packet of item `j`; packets are numbered through, from 1. */
  function First(items: seq<Item>, j: nat): (n: int)
    requires j <= |items|
    ensures n >= 1
  {
    if j == 0 then 1 else First(items, j - 1) + Size(items[j - 1])
  }

  /** Bodies are nonempty, a fragment count fits its field, and no group id is used twice. */
  predicate Proper(items: seq<Item>) {
    && (forall j :: 0 <= j < |items| ==> items[j].body != [] && Size(items[j]) <= 65535)
    && (forall i, j :: 0 <= i < |items| && 0 <= j < |items| && items[i].Split? && items[j].Split? && i != j ==>
          items[i].group != items[j].group)
  }

  /** Packet `n` belongs to item `j`. */
  predicate Of(items: seq<Item>, j: int, n: int) {
    0 <= j < |items| && First(items, j) <= n < First(items, j + 1)
  }

  function OwnerBelow(items: seq<Item>, n: int, j: nat): nat
    requires j <= |items|
  {
    if j == 0 then 0 else if First(items, j - 1) <= n then j - 1 else OwnerBelow(items, n, j - 1)
  }

  function Owner(items: seq<Item>, n: int): nat {
    OwnerBelow(items, n, |items|)
  }

  function PacketsOf(items: seq<Item>, j: nat): set<int>
    requires j < |items|
  {
    set n | First(items, j) <= n < First(items, j + 1) && Of(items, j, n)
  }

  function ItemFragments(channel: Byte, items: seq<Item>, j: nat): seq<Bytes>
    requires j < |items| && items[j].Split?
  {
    Fragments(channel, items[j].group, Keys(First(items, j), Size(items[j])), Chunks(items[j].body))
  }

  /** Packet `n` as it travels. */
  function Packet(channel: Byte, items: seq<Item>, n: int): Bytes {
    var j := Owner(items, n);
    if !Of(items, j, n) then []
    else if items[j].Plain? then Message(channel, Wire(n), items[j].body)
    else ItemFragments(channel, items, j)[n - First(items, j)]
  }

  /** How many packets the items take. */
  function Total(items: seq<Item>): nat {
    First(items, |items|) - 1
  }

  // ---- as the channel computes it ----

  datatype Step = Arrive(n: int) | Update | Take

  datatype Port = Port(box: Inbox, popped: seq<Bytes>, taken: seq<Bytes>)

  function Apply(channel: Byte, items: seq<Item>, p: Port, step: Step): Port {
    match step
    case Arrive(n) => p.(box := Accepted(p.box, Packet(channel, items, n)))
    case Update => p.(box := p.box.(receiver := S.Publish(p.box.receiver)))
    case Take =>
      match TakeOne(p.box)
      case (_, None) => p
      case (box, Some(body)) =>
        Port(box, p.popped + [p.box.receiver.published[0]], if body == [] then p.taken else p.taken + [body])
  }

  function Run(channel: Byte, ordered: bool, window: WindowSize, items: seq<Item>, steps: seq<Step>): Port {
    if steps == [] then Port(Inbox(S.Initial(ordered, window), map[]), [], [])
    else Apply(channel, items, Run(channel, ordered, window, items, steps[..|steps| - 1]), steps[|steps| - 1])
  }

  /** What of a run the receiver sees. */
  function Events(steps: seq<Step>): seq<Runs.Event> {
    if steps == [] then []
    else
      Events(steps[..|steps| - 1]) +
      match steps[|steps| - 1]
      case Arrive(n) => [Runs.Arrive(n)]
      case Update => [Runs.Update]
      case Take => []
  }

  /** Only packets that exist arrive. */
  predicate Existing(items: seq<Item>, steps: seq<Step>) {
    forall i :: 0 <= i < |steps| && steps[i].Arrive? ==> 1 <= steps[i].n <= Total(items)
  }

  // ---- by packet numbers ----

  /** A packet arrives, or the application takes its published message. */
  datatype Move = In(n: int) | Out(n: int)

  /** The packets that arrive. */
  function Ins(moves: seq<Move>): set<int> {
    if moves == [] then {}
    else Ins(moves[..|moves| - 1]) + if moves[|moves| - 1].In? then {moves[|moves| - 1].n} else {}
  }

  /** The packets taken, in order. */
  function Outs(moves: seq<Move>): seq<int> {
    if moves == [] then []
    else Outs(moves[..|moves| - 1]) + if moves[|moves| - 1].Out? then [moves[|moves| - 1].n] else []
  }

  /** The arrivals and takes of a run: each take gets the next of the packets published so far. */
  function Moves(ordered: bool, window: nat, steps: seq<Step>): seq<Move> {
    if steps == [] then []
    else
      var before := steps[..|steps| - 1];
      var moves := Moves(ordered, window, before);
      match steps[|steps| - 1]
      case Arrive(n) => moves + [In(n)]
      case Update => moves
      case Take =>
        var published, k := Runs.ViewRun(ordered, window, Events(before)).delivered, |Outs(moves)|;
        if k < |published| then moves + [Out(published[k])] else moves
  }

  /** `recent` are the packets that arrived since their item was last handed out, and `log` lists the
      items handed out. */
  datatype Desk = Desk(recent: set<int>, log: seq<nat>)

  /** Taking packet `n` hands out its item. */
  predicate HandsOut(items: seq<Item>, d: Desk, n: int) {
    var j := Owner(items, n);
    j < |items| && (items[j].Plain? || PacketsOf(items, j) <= d.recent)
  }

  function DeskStep(items: seq<Item>, d: Desk, move: Move): Desk {
    match move
    case In(n) => d.(recent := d.recent + {n})
    case Out(n) =>
      if !HandsOut(items, d, n) then d
      else Desk(d.recent - PacketsOf(items, Owner(items, n)), d.log + [Owner(items, n)])
  }

  function DeskRun(items: seq<Item>, moves: seq<Move>): Desk {
    if moves == [] then Desk({}, [])
    else DeskStep(items, DeskRun(items, moves[..|moves| - 1]), moves[|moves| - 1])
  }

  /** All packets of item `j` arrive among `moves`. */
  predicate AllIn(items: seq<Item>, j: nat, moves: seq<Move>)
    requires j < |items|
  {
    PacketsOf(items, j) <= Ins(moves)
  }

  /** All packets of item `j` are taken among `moves`. */
  predicate AllOut(items: seq<Item>, j: nat, moves: seq<Move>)
    requires j < |items|
  {
    forall n :: n in PacketsOf(items, j) ==> n in Outs(moves)
  }

  /** Headers of the fragmented item `j` are taken at `a` and at `b`; all its fragments arrive before `a`,
      and all arrive again between the two. */
  predicate Revives(items: seq<Item>, moves: seq<Move>, j: int, a: int, b: int) {
    && 0 <= j < |items| && items[j].Split? && 0 <= a < b < |moves|
    && moves[a].Out? && Of(items, j, moves[a].n) && moves[b].Out? && Of(items, j, moves[b].n)
    && AllIn(items, j, moves[..a]) && AllIn(items, j, moves[a + 1..b])
  }

  ghost predicate Revived(items: seq<Item>, moves: seq<Move>) {
    exists j, a, b :: Revives(items, moves, j, a, b)
  }

  function Bodies(items: seq<Item>, log: seq<nat>): seq<Bytes>
    requires forall i :: 0 <= i < |log| ==> log[i] < |items|
  {
    seq(|log|, i requires 0 <= i < |log| => items[log[i]].body)
  }
}
