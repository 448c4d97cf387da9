/** Two channel ends joined by a network that loses, duplicates and reorders datagrams.  `net` holds
    every datagram ever sent; a step may deliver any of them, any number of times or never. */
module Protocol {
  import opened Sequence
  import opened IntBuffers
  import opened Nacks
  import opened Headers
  import opened ByteBufferPools
  import opened SendBuffers
  import opened ChannelSpec
  import opened FragmentSpec
  import opened Fragmentations
  import opened Inboxes
  import opened Numbering
  import D = Delivery
  import S = ReceiverSpec

  /** A datagram in the network.  `n` records the number of the packet it carries; only the bytes
      travel. */
  datatype Flight = Data(n: int, bytes: Bytes) | NackList(nacks: seq<Nack>)

  type ChannelSender = s: Sender | SoundSender(s) && s.pool.bufferSize == BUFFER_SIZE_DEFAULT ghost witness START

  datatype World = World(
    channel: Byte,
    items: seq<D.Item>,           // messages sent by the application, in order
    sender: ChannelSender,
    requested: set<U16>,          // sequences nacked since the last resend
    net: set<Flight>,
    port: D.Port)                 // the receiving end

  datatype Step =
    | Send(body: Bytes)
    | Deliver(flight: Flight)
    | Nack
    | Resend
    | Publish
    | Take

  function Start(channel: Byte, ordered: bool, window: WindowSize): World {
    World(channel, [], START, {}, {}, D.Run(channel, ordered, window, [], []))
  }

  function Receiver(w: World): S.State<Bytes> {
    w.port.box.receiver
  }

  /** The number of the receiver's current packet. */
  function Progress(w: World): int {
    Unwire(D.Total(w.items), Receiver(w).current)
  }

  /** The application sends nonempty bodies that fit the window and wears out no group id; the network
      delivers no data older than MAX_AGE. */
  predicate Enabled(w: World, step: Step) {
    match step
    case Send(body) =>
      && body != [] && (|body| >= FRAGMENT_SIZE ==> Splits(w.items) < 65533)
      && D.Total(w.items + [ItemOf(w.items, body)]) <= Progress(w) + Receiver(w).window
    case Deliver(flight) => flight in w.net && (flight.Data? ==> flight.n >= Progress(w) - MAX_AGE)
    case _ => true
  }

  /** The record of a datagram leaving a sender whose newest packet is `newest`. */
  function Launch(newest: int, bytes: Bytes): Flight {
    Data(if |bytes| < HEADER_SIZE then newest else Unwire(newest, PlainAt(bytes).sequence), bytes)
  }

  function LaunchAll(newest: int, datagrams: seq<Bytes>): set<Flight> {
    set d | d in datagrams :: Launch(newest, d)
  }

  /** The sender after sending `item`, and the datagrams it emits. */
  ghost function Emitted(sender: ChannelSender, channel: Byte, item: D.Item): (ChannelSender, seq<Bytes>) {
    var first := Next(sender.current);
    match item
    case Plain(body) =>
      var message := Message(channel, first, body);
      IssueSound(sender, message);
      (Issue(sender, message), [message])
    case Split(group, body) =>
      var keys := AfterAll(first, |Chunks(body)|);
      var sender' := IssueAll(sender, Fragments(channel, group, keys, Chunks(body)));
      (sender', FetchedAll(sender', keys))
  }

  ghost function Apply(w: World, step: Step): World {
    match step
    case Send(body) =>
      var items := w.items + [ItemOf(w.items, body)];
      var (sender, datagrams) := Emitted(w.sender, w.channel, ItemOf(w.items, body));
      w.(items := items, sender := sender, net := w.net + LaunchAll(D.Total(items), datagrams))
    case Deliver(Data(_, bytes)) => w.(port := w.port.(box := Accepted(w.port.box, bytes)))
    case Deliver(NackList(nacks)) => w.(requested := w.requested + set s | s in Expand(nacks))
    case Nack =>
      var nacks := S.CreateNacks(Receiver(w)).0;
      if nacks == [] then w else w.(net := w.net + {NackList(nacks)})
    case Resend =>
      w.(net := w.net + (set s | s in w.requested :: Launch(D.Total(w.items), Answer(w.sender, w.channel, s))),
         requested := {})
    case Publish => w.(port := D.Apply(w.channel, w.items, w.port, D.Update))
    case Take => w.(port := D.Apply(w.channel, w.items, w.port, D.Take))
  }

  /** The world after `steps`, all of which were enabled when taken. */
  ghost function Run(start: World, steps: seq<Step>): World {
    if steps == [] then start else Apply(Run(start, steps[..|steps| - 1]), steps[|steps| - 1])
  }

  ghost predicate Possible(start: World, steps: seq<Step>) {
    steps == [] ||
    (Possible(start, steps[..|steps| - 1]) && Enabled(Run(start, steps[..|steps| - 1]), steps[|steps| - 1]))
  }

  /** The step of the receiving end that a step of the world stands for. */
  function PortStepOf(step: Step): seq<D.Step> {
    match step
    case Deliver(Data(n, _)) => [D.Arrive(n)]
    case Publish => [D.Update]
    case Take => [D.Take]
    case _ => []
  }

  /** What of a run the receiving end sees. */
  function PortSteps(steps: seq<Step>): seq<D.Step> {
    if steps == [] then [] else PortSteps(steps[..|steps| - 1]) + PortStepOf(steps[|steps| - 1])
  }

  /** The messages that the application has sent. */
  function Sent(w: World): seq<Bytes> {
    seq(|w.items|, i requires 0 <= i < |w.items| => w.items[i].body)
  }
}
