/** Recycling of byte buffers (src/tachyon/byte_buffer_pool.rs). */
module ByteBufferPools {
  import opened IntBuffers

  const BUFFER_SIZE_DEFAULT := 1240

  datatype ByteBuffer = ByteBuffer(data: Bytes, length: nat, pooled: bool, version: nat)

  datatype Pool = Pool(bufferSize: nat, poolSize: nat, buffers: seq<ByteBuffer>, count: nat)

  function EmptyPool(bufferSize: nat, poolSize: nat): Pool {
    Pool(bufferSize, poolSize, [], 0)
  }

  function Zeros(length: nat): Bytes {
    seq(length, _ => 0)
  }

  function Returned(p: Pool, buffer: ByteBuffer): (Pool, bool) {
    if buffer.length <= p.bufferSize && p.count < p.poolSize then
      (p.(buffers := p.buffers + [buffer.(version := buffer.version + 1)], count := p.count + 1), true)
    else (p, false)
  }

  function Gotten(p: Pool, length: nat): (Pool, ByteBuffer)
    requires p.count == |p.buffers|
  {
    if length > p.bufferSize then (p, ByteBuffer(Zeros(length), length, false, 0))
    else if p.buffers != [] then
      (p.(buffers := p.buffers[1..], count := p.count - 1), p.buffers[0].(length := length))
    else (p, ByteBuffer(Zeros(p.bufferSize), length, true, 0))
  }

  /** A buffer of the pool's making: pooled ones have the pool's size, others are larger and full. */
  predicate OfPool(p: Pool, buffer: ByteBuffer) {
    if buffer.pooled then |buffer.data| == p.bufferSize && buffer.length <= p.bufferSize
    else |buffer.data| == buffer.length > p.bufferSize
  }

  predicate Sound(p: Pool) {
    && p.count == |p.buffers| <= p.poolSize
    && forall i :: 0 <= i < |p.buffers| ==> p.buffers[i].pooled && OfPool(p, p.buffers[i])
  }

  /** Recycling never hands out a buffer that is too small, whatever was returned before. */
  lemma GottenFits(p: Pool, length: nat)
    requires Sound(p)
    ensures var (p', buffer) := Gotten(p, length);
            && Sound(p') && p'.bufferSize == p.bufferSize && p'.poolSize == p.poolSize
            && OfPool(p', buffer) && buffer.length == length <= |buffer.data|
            && buffer.pooled == (length <= p.bufferSize)
  {
  }

  lemma ReturnedSound(p: Pool, buffer: ByteBuffer)
    requires Sound(p) && OfPool(p, buffer)
    ensures var (p', taken) := Returned(p, buffer);
            && Sound(p') && p'.bufferSize == p.bufferSize && p'.poolSize == p.poolSize
            && taken == (buffer.pooled && |p.buffers| < p.poolSize)
  {
  }

  /** For any pool, whatever was returned to it: when the next buffer handed out holds the length. */
  lemma GottenFitsExactly(p: Pool, length: nat)
    requires p.count == |p.buffers|
    ensures length <= |Gotten(p, length).1.data| <==>
            length > p.bufferSize || p.buffers == [] || |p.buffers[0].data| >= length
  {
  }

  /** The pool after getting `k` buffers of the given length. */
  function GottenAll(p: Pool, length: nat, k: nat): (r: Pool)
    requires p.count == |p.buffers|
    ensures r.count == |r.buffers|
  {
    if k == 0 then p else Gotten(GottenAll(p, length, k - 1), length).0
  }

  lemma {:induction false} GottenInTurn(p: Pool, length: nat, k: nat)
    requires p.count == |p.buffers| && length <= p.bufferSize && k <= |p.buffers|
    ensures GottenAll(p, length, k) == p.(buffers := p.buffers[k..], count := p.count - k)
  {
    if k > 0 { GottenInTurn(p, length, k - 1); }
  }

  /** First in, first out: a buffer that is taken back is handed out after all those already there, with the
      bytes it had and its version raised by one. */
  lemma {:induction false} ReturnedComesBack(p: Pool, buffer: ByteBuffer, length: nat)
    requires p.count == |p.buffers| && Returned(p, buffer).1 && length <= p.bufferSize
    ensures var p' := Returned(p, buffer).0;
            var again := Gotten(GottenAll(p', length, |p.buffers|), length).1;
            p'.count == |p'.buffers| && again == buffer.(length := length, version := buffer.version + 1)
  {
    var p' := Returned(p, buffer).0;
    GottenInTurn(p', length, |p.buffers|);
  }

  // ---- runs ----

  datatype Use = Get(length: nat) | Return(buffer: ByteBuffer)

  function Used(p: Pool, use: Use): (r: Pool)
    requires p.count == |p.buffers|
    ensures r.count == |r.buffers| && r.bufferSize == p.bufferSize && r.poolSize == p.poolSize
  {
    match use
    case Get(length) => Gotten(p, length).0
    case Return(buffer) => Returned(p, buffer).0
  }

  /** Getting buffers of the given lengths, one after the other, yields one that fits each time. */
  predicate GetsFit(p: Pool, lengths: seq<nat>)
    requires p.count == |p.buffers|
    decreases lengths
  {
    lengths == [] || (lengths[0] <= |Gotten(p, lengths[0]).1.data| && GetsFit(Gotten(p, lengths[0]).0, lengths[1..]))
  }

  /** All further gets fit, whatever lengths are asked for. */
  ghost predicate AlwaysFits(p: Pool)
    requires p.count == |p.buffers|
  {
    forall lengths: seq<nat> :: GetsFit(p, lengths)
  }

  /** ... at every point of the run `uses`. */
  ghost predicate RunFits(p: Pool, uses: seq<Use>)
    requires p.count == |p.buffers|
    decreases uses
  {
    AlwaysFits(p) && (uses == [] || RunFits(Used(p, uses[0]), uses[1..]))
  }

  predicate AllLong(p: Pool) {
    forall i :: 0 <= i < |p.buffers| ==> |p.buffers[i].data| >= p.bufferSize
  }

  /** Every buffer that the pool takes back in the run `uses` holds the pool's buffer size. */
  predicate TakesLong(p: Pool, uses: seq<Use>)
    requires p.count == |p.buffers|
    decreases uses
  {
    uses == [] ||
    (var use := uses[0];
     && (use.Return? && Returned(p, use.buffer).1 ==> |use.buffer.data| >= p.bufferSize)
     && TakesLong(Used(p, use), uses[1..]))
  }

  lemma {:induction false} LongFits(p: Pool, lengths: seq<nat>)
    requires p.count == |p.buffers| && AllLong(p)
    ensures GetsFit(p, lengths)
    decreases lengths
  {
    if lengths != [] { LongFits(Gotten(p, lengths[0]).0, lengths[1..]); }
  }

  /** A short buffer in the pool is found by asking for the full size often enough. */
  lemma {:induction false} ShortIsFound(p: Pool, i: nat) returns (lengths: seq<nat>)
    requires p.count == |p.buffers| && i < |p.buffers| && |p.buffers[i].data| < p.bufferSize
    ensures !GetsFit(p, lengths)
    decreases i
  {
    if |p.buffers[0].data| < p.bufferSize {
      lengths := [p.bufferSize];
    } else {
      var rest := ShortIsFound(Gotten(p, p.bufferSize).0, i - 1);
      lengths := [p.bufferSize] + rest;
      assert lengths[1..] == rest;
    }
  }

  lemma AlwaysFitsExactly(p: Pool)
    requires p.count == |p.buffers|
    ensures AlwaysFits(p) <==> AllLong(p)
  {
    if AllLong(p) {
      forall lengths: seq<nat> ensures GetsFit(p, lengths) { LongFits(p, lengths); }
    } else {
      var i :| 0 <= i < |p.buffers| && |p.buffers[i].data| < p.bufferSize;
      var lengths := ShortIsFound(p, i);
    }
  }

  /** Over every run of gets and returns, from an empty pool or one of long buffers: all gets fit at every point of
      the run, whatever lengths are asked for, exactly when every buffer taken back was long enough. */
  lemma {:induction false} RunFitsExactly(p: Pool, uses: seq<Use>)
    requires p.count == |p.buffers| && AllLong(p)
    ensures RunFits(p, uses) <==> TakesLong(p, uses)
    decreases uses
  {
    AlwaysFitsExactly(p);
    if uses != [] {
      var p' := Used(p, uses[0]);
      if AllLong(p') {
        RunFitsExactly(p', uses[1..]);
        assert uses[0].Return? && Returned(p, uses[0].buffer).1 ==> |p'.buffers[|p.buffers|].data| >= p.bufferSize;
      } else {
        AlwaysFitsExactly(p');
      }
    }
  }

  /** A buffer made elsewhere breaks the guarantee: the pool accepts one that is shorter than its
      buffers and then hands it out for a length it cannot hold. */
  lemma ForeignBufferIsTooSmall()
    ensures var p := Returned(EmptyPool(1240, 512), ByteBuffer(Zeros(1024), 1024, false, 0)).0;
            p.count == |p.buffers| && |Gotten(p, 1240).1.data| < Gotten(p, 1240).1.length
  {
  }

  class ByteBufferPool {
    const bufferSize: nat
    const poolSize: nat
    var buffers: seq<ByteBuffer>
    var count: nat

    ghost function Abs(): Pool
      reads this
    {
      Pool(bufferSize, poolSize, buffers, count)
    }

    constructor (bufferSize: nat, poolSize: nat)
      ensures Abs() == EmptyPool(bufferSize, poolSize)
    {
      this.bufferSize, this.poolSize := bufferSize, poolSize;
      buffers, count := [], 0;
    }

    method ReturnBuffer(buffer: ByteBuffer) returns (taken: bool)
      modifies this
      ensures (Abs(), taken) == Returned(old(Abs()), buffer)
    {
      if buffer.length <= bufferSize {
        if count < poolSize {
          buffers := buffers + [buffer.(version := buffer.version + 1)];
          count := count + 1;
          return true;
        }
      }
      return false;
    }

    method GetBuffer(length: nat) returns (buffer: ByteBuffer)
      requires count == |buffers|
      modifies this
      ensures (Abs(), buffer) == Gotten(old(Abs()), length)
    {
      if length > bufferSize {
        return ByteBuffer(Zeros(length), length, false, 0);
      }
      if buffers != [] {
        buffer := buffers[0].(length := length);
        buffers := buffers[1..];
        count := count - 1;
      } else {
        buffer := ByteBuffer(Zeros(bufferSize), length, true, 0);
      }
    }
  }
}
