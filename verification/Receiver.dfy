/** The receiver object (src/tachyon/receiver.rs), proved to compute the functions of
    ReceiverSpec.  `P` is the content of a received packet: the bytes copied into a buffer. */
module Receivers {
  import opened Sequence
  import opened SequenceBuffers
  import opened Nacks
  import Spec = ReceiverSpec

  class Receiver<P> {
    const ordered: bool
    const window: WindowSize
    var last: U16
    var current: U16
    const buffered: SequenceBuffer<P>
    const received: SequenceBuffer<bool>
    var published: seq<P>
    var resendList: seq<U16>
    var nackList: seq<Nack>
    var nackQueue: seq<Nack>
    var skipped: nat

    ghost predicate Valid() {
      buffered as object != received as object
    }

    ghost function Abs(): Spec.State<P>
      reads this, buffered, received
    {
      Spec.State(ordered, window, last, current, buffered.values, received.values, published, skipped)
    }

    constructor (ordered: bool, window: WindowSize)
      ensures Valid() && fresh(buffered) && fresh(received)
      ensures Abs() == Spec.Initial(ordered, window)
      ensures nackList == [] && nackQueue == [] && resendList == []
    {
      this.ordered, this.window := ordered, window;
      last, current, published, skipped := 0, 0, [], 0;
      resendList, nackList, nackQueue := [], [], [];
      buffered := new SequenceBuffer();
      received := new SequenceBuffer();
    }

    method TakePublished() returns (data: Option<P>)
      modifies this`published
      ensures (Abs(), data) == Spec.TakePublished(old(Abs()))
    {
      if published == [] {
        return None;
      }
      data := Some(published[0]);
      published := published[1..];
    }

    method ReceivePacket(sequence: U16, data: P) returns (accepted: bool)
      requires Valid()
      modifies this`last, this`current, this`published, this`skipped, buffered, received
      ensures (Abs(), accepted) == Spec.ReceivePacket(old(Abs()), sequence, data)
    {
      if Spec.ShouldIncrementCurrent(current, last, window) {
        received.Remove(current);
        current := Next(current);
        skipped := skipped + 1;
      }
      if !IsGreaterThan(sequence, current) {
        return false;
      }
      if IsGreaterThan(sequence, last) {
        last := sequence;
      }
      if sequence == Next(current) {
        var previous := current;
        current := sequence;
        received.Remove(previous);
      }
      // a resend can be ahead of current and already received
      if received.IsSome(sequence) {
        return false;
      }
      buffered.Insert(sequence, data);
      received.Insert(sequence, true);
      Publish();
      return true;
    }

    method Publish()
      requires Valid()
      modifies this`current, this`published, buffered, received
      ensures Abs() == Spec.Publish(old(Abs()))
    {
      var end := Next(last);
      var step := true;
      var s := current;
      var i := 0;
      while i < window
        invariant i <= window
        invariant end == Next(last) && last == old(last) && skipped == old(skipped)
        invariant Spec.PublishFrom(Abs(), s, step, window - i) == Spec.Publish(old(Abs()))
      {
        if received.IsSome(s) {
          PublishOne(s, step);
        } else if ordered {
          break;
        } else {
          step := false;
        }
        s := Next(s);
        if s == end {
          break;
        }
        i := i + 1;
      }
    }

    method PublishOne(s: U16, step: bool)
      requires Valid()
      modifies this`current, this`published, buffered, received
      ensures Abs() == Spec.PublishOne(old(Abs()), s, step)
    {
      if current == s {
        received.Remove(s);
      } else if step && IsGreaterThan(s, current) {
        current := s;
        received.Remove(s);
      }
      if buffered.IsSome(s) {
        var data := buffered.Take(s);
        published := published + [data.value];
      }
    }

    method SetResendList()
      modifies this`resendList
      ensures resendList == Spec.ResendList(Abs())
    {
      resendList := [];
      if current == last {
        return;
      }
      var s := Previous(last);
      var i := 0;
      while i < window
        invariant i <= window
        invariant Spec.ResendFrom(Abs(), s, window - i, resendList) == Spec.ResendList(Abs())
      {
        if !received.IsSome(s) {
          resendList := resendList + [s];
        }
        s := Previous(s);
        if s == current {
          break;
        }
        i := i + 1;
      }
    }

    method CreateNacks() returns (count: nat)
      modifies this`nackList, this`nackQueue
      ensures (nackList, count) == Spec.CreateNacks(Abs()) && nackQueue == nackList
    {
      nackList, nackQueue, count := [], [], 0;
      var s := Previous(last);
      if IsEqualToOrLessThan(s, current) {
        return;
      }
      for i := 0 to window / 32
        invariant Spec.NackGroups(Abs(), s, window / 32 - i, nackList, count) == Spec.CreateNacks(Abs())
        invariant nackQueue == nackList
      {
        if IsEqualToOrLessThan(s, current) {
          return;
        }
        if received.IsSome(s) {
          s := Previous(s);
          if IsEqualToOrLessThan(s, current) {
            return;
          }
          continue;
        }
        count := count + 1;
        var nack := DEFAULT_NACK.(start := s, nackedCount := count);
        var done;
        nack, s, count, done := CreateNack(s, nack, count);
        nackList := nackList + [nack];
        nackQueue := nackQueue + [nack];
        if done {
          return;
        }
        s := Previous(s);
      }
    }

    /** The inner loop of `create_nacks`: the flags of one nack that starts at `start`. */
    method CreateNack(start: U16, head: Nack, headCount: nat) returns (nack: Nack, s: U16, count: nat, done: bool)
      ensures Spec.Group(nack, s, count, done) == Spec.NackFlags(Abs(), start, 0, head, headCount)
    {
      nack, s, count, done := head, start, headCount, false;
      for i := 0 to FLAG_COUNT
        invariant !done
        invariant Spec.NackFlags(Abs(), s, i, nack, count) == Spec.NackFlags(Abs(), start, 0, head, headCount)
      {
        s := Previous(s);
        if IsEqualToOrLessThan(s, current) {
          done := true;
          return;
        }
        if !received.IsSome(s) {
          count := count + 1;
          nack := SetBits(nack, i, true).(nackedCount := count);
        }
      }
    }
  }
}
