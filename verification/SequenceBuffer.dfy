/** The 1024-slot ring behind the receive and send buffers (src/tachyon/sequence_buffer.rs). */
module SequenceBuffers {
  import opened Sequence

  datatype Option<+T> = None | Some(value: T)

  type Ring<T> = r: seq<Option<T>> | |r| == RING_SIZE witness seq(RING_SIZE, _ => None)

  function EmptyRing<T>(): Ring<T> {
    seq(RING_SIZE, _ => None)
  }

  predicate Occupied<T>(ring: Ring<T>, sequence: U16) {
    ring[Slot(sequence)].Some?
  }

  function Put<T>(ring: Ring<T>, sequence: U16, value: T): Ring<T> {
    ring[Slot(sequence) := Some(value)]
  }

  function Clear<T>(ring: Ring<T>, sequence: U16): Ring<T> {
    ring[Slot(sequence) := None]
  }

  class SequenceBuffer<T> {
    var values: Ring<T>

    constructor ()
      ensures values == EmptyRing()
    {
      values := EmptyRing();
    }

    method Insert(sequence: U16, value: T)
      modifies this
      ensures values == Put(old(values), sequence, value)
    {
      values := values[sequence % RING_SIZE := Some(value)];
    }

    method Remove(sequence: U16)
      modifies this
      ensures values == Clear(old(values), sequence)
    {
      values := values[sequence % RING_SIZE := None];
    }

    method Take(sequence: U16) returns (value: Option<T>)
      modifies this
      ensures value == old(values)[Slot(sequence)]
      ensures values == Clear(old(values), sequence)
    {
      var index := sequence % RING_SIZE;
      value := values[index];
      values := values[index := None];
    }

    predicate IsSome(sequence: U16)
      reads this
    {
      Occupied(values, sequence)
    }
  }
}
