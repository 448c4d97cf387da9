/** What one call does to a receiver, as a function of its fields (src/tachyon/receiver.rs).
    Sequences are wire numbers and packets live in ring slots, exactly as in the source; the
    class in Receiver.dfy is proved to compute these functions. */
module ReceiverSpec {
  import opened Sequence
  import opened SequenceBuffers
  import opened Nacks

  datatype State<P> = State(
    ordered: bool,
    window: WindowSize,
    last: U16,
    current: U16,
    buffered: Ring<P>,
    received: Ring<bool>,
    published: seq<P>,
    skipped: nat)

  function Initial<P>(ordered: bool, window: WindowSize): State<P> {
    State(ordered, window, 0, 0, EmptyRing(), EmptyRing(), [], 0)
  }

  /** True when `last` is more than `window` ahead of `current`. */
  predicate ShouldIncrementCurrent(current: U16, last: U16, window: WindowSize) {
    current != last &&
    var distance := last - window;
    var start := if distance < 0 then 65535 + distance else distance;
    IsGreaterThan(start % 0x1_0000, current)
  }

  function Skip<P>(s: State<P>): State<P> {
    if ShouldIncrementCurrent(s.current, s.last, s.window) then
      s.(received := Clear(s.received, s.current), current := Next(s.current), skipped := s.skipped + 1)
    else s
  }

  function ReceivePacket<P>(s: State<P>, sequence: U16, data: P): (State<P>, bool) {
    Accept(Skip(s), sequence, data)
  }

  function Accept<P>(s: State<P>, sequence: U16, data: P): (State<P>, bool) {
    if !IsGreaterThan(sequence, s.current) then (s, false) else
    var s1 := Admit(s, sequence);
    if Occupied(s1.received, sequence) then (s1, false) else
    (Publish(Store(s1, sequence, data)), true)
  }

  /** Raises `last` to a newer sequence and `current` to the next one. */
  function Admit<P>(s: State<P>, sequence: U16): State<P> {
    var s1 := if IsGreaterThan(sequence, s.last) then s.(last := sequence) else s;
    if sequence == Next(s1.current) then
      s1.(current := sequence, received := Clear(s1.received, s1.current))
    else s1
  }

  function Store<P>(s: State<P>, sequence: U16, data: P): State<P> {
    s.(buffered := Put(s.buffered, sequence, data), received := Put(s.received, sequence, true))
  }

  function Publish<P>(s: State<P>): State<P> {
    PublishFrom(s, s.current, true, s.window)
  }

  /** The publishing walk at `sequence` with `budget` iterations left; `step` is still true when
      no missing sequence has been met. */
  function PublishFrom<P>(s: State<P>, sequence: U16, step: bool, budget: nat): State<P>
    decreases budget
  {
    if budget == 0 then s else
    var s' := if Occupied(s.received, sequence) then PublishOne(s, sequence, step) else s;
    if !Occupied(s.received, sequence) && s.ordered then s else
    if Next(sequence) == Next(s.last) then s' else
    PublishFrom(s', Next(sequence), step && Occupied(s.received, sequence), budget - 1)
  }

  /** One iteration of the walk at a received sequence. */
  function PublishOne<P>(s: State<P>, sequence: U16, step: bool): State<P> {
    var s1 := if s.current == sequence then s.(received := Clear(s.received, sequence))
              else if step && IsGreaterThan(sequence, s.current)
              then s.(current := sequence, received := Clear(s.received, sequence))
              else s;
    match s1.buffered[Slot(sequence)]
    case Some(data) => s1.(buffered := Clear(s1.buffered, sequence), published := s1.published + [data])
    case None => s1
  }

  function TakePublished<P>(s: State<P>): (State<P>, Option<P>) {
    if s.published == [] then (s, None) else (s.(published := s.published[1..]), Some(s.published[0]))
  }

  /** The missing sequences below `last`, one by one, newest first. */
  function ResendList<P>(s: State<P>): seq<U16> {
    if s.current == s.last then [] else ResendFrom(s, Previous(s.last), s.window, [])
  }

  function ResendFrom<P>(s: State<P>, sequence: U16, budget: nat, list: seq<U16>): seq<U16>
    decreases budget
  {
    if budget == 0 then list else
    var list' := if Occupied(s.received, sequence) then list else list + [sequence];
    if Previous(sequence) == s.current then list'
    else ResendFrom(s, Previous(sequence), budget - 1, list')
  }

  /** The nack list and the number of sequences it names. */
  function CreateNacks<P>(s: State<P>): (seq<Nack>, nat) {
    if IsEqualToOrLessThan(Previous(s.last), s.current) then ([], 0)
    else NackGroups(s, Previous(s.last), s.window / 32, [], 0)
  }

  /** The outer nack walk at `sequence` with `budget` iterations left. */
  function NackGroups<P>(s: State<P>, sequence: U16, budget: nat, nacks: seq<Nack>, count: nat): (seq<Nack>, nat)
    decreases budget
  {
    if budget == 0 || IsEqualToOrLessThan(sequence, s.current) then (nacks, count)
    else if Occupied(s.received, sequence) then
      if IsEqualToOrLessThan(Previous(sequence), s.current) then (nacks, count)
      else NackGroups(s, Previous(sequence), budget - 1, nacks, count)
    else
      var head := DEFAULT_NACK.(start := sequence, nackedCount := count + 1);
      var g := NackFlags(s, sequence, 0, head, count + 1);
      if g.done then (nacks + [g.nack], g.count)
      else NackGroups(s, Previous(g.sequence), budget - 1, nacks + [g.nack], g.count)
  }

  datatype Group = Group(nack: Nack, sequence: U16, count: nat, done: bool)

  /** The inner walk that sets the flags of one nack; `done` when it ran into `current`. */
  function NackFlags<P>(s: State<P>, sequence: U16, index: nat, nack: Nack, count: nat): Group
    requires index <= FLAG_COUNT
    decreases FLAG_COUNT - index, sequence
  {
    if index == FLAG_COUNT then Group(nack, sequence, count, false)
    else if IsEqualToOrLessThan(Previous(sequence), s.current) then Group(nack, Previous(sequence), count, true)
    else if Occupied(s.received, Previous(sequence)) then
      NackFlags(s, Previous(sequence), index + 1, nack, count)
    else
      NackFlags(s, Previous(sequence), index + 1,
                SetBits(nack, index, true).(nackedCount := count + 1), count + 1)
  }
}
