/**
 * The part of java.nio.ByteBuffer that the receiver uses: a fixed array with
 * a position and a limit, bulk put and get, flip and compact. In write mode
 * the bytes written so far are data[..position].
 */
module ByteBuffers {
  import opened TransportDefs

  class ByteBuffer {
    const data: array<Byte>
    var position: nat
    var limit: nat

    ghost predicate Valid()
      reads this
    {
      position <= limit <= data.Length
    }

    /** ByteBuffer.allocate(capacity): empty, in write mode, limit at capacity. */
    constructor Allocate(capacity: nat)
      ensures Valid() && fresh(data)
      ensures data.Length == capacity && position == 0 && limit == capacity
    {
      data := new Byte[capacity];
      position, limit := 0, capacity;
    }

    /** The bytes before the position: in write mode, what has been put. */
    ghost function Written(): seq<Byte>
      reads this, data
      requires Valid()
    {
      data[..position]
    }

    /** remaining: room left before the limit. */
    function Remaining(): nat
      reads this
      requires Valid()
    {
      limit - position
    }

    /**
     * put(byte[]): copies `src` at the position and advances it; fails
     * (BufferOverflowException) and changes nothing when `src` does not fit.
     */
    method Put(src: seq<Byte>) returns (ok: bool)
      requires Valid()
      modifies this, data
      ensures Valid() && limit == old(limit)
      ensures ok <==> |src| <= old(Remaining())
      ensures !ok ==> unchanged(this) && unchanged(data)
      ensures ok ==> position == old(position) + |src|
      ensures ok ==> data[..] == old(data[..position]) + src + old(data[position + |src|..])
      ensures ok ==> Written() == old(Written()) + src
    {
      if |src| > limit - position {
        return false;
      }
      forall i | 0 <= i < |src| {
        data[position + i] := src[i];
      }
      position := position + |src|;
      ok := true;
      assert data[..] == old(data[..position]) + src + old(data[position + |src|..]);
      assert data[..position] == data[..][..position];
    }

    /** flip: the limit becomes the position and the position becomes 0. */
    method Flip()
      requires Valid()
      modifies this
      ensures Valid()
      ensures limit == old(position) && position == 0
    {
      limit := position;
      position := 0;
    }

    /**
     * get(dst, off, length): copies `length` bytes from the position into
     * dst[off..off+length] and advances the position.
     */
    method Get(dst: array<Byte>, off: int, length: int)
      requires Valid()
      requires dst != data
      requires 0 <= off && 0 <= length <= Remaining() && off + length <= dst.Length
      modifies this, dst
      ensures Valid()
      ensures position == old(position) + length && limit == old(limit)
      ensures dst[..] == old(dst[..off]) + old(data[position..position + length]) + old(dst[off + length..])
    {
      forall i | 0 <= i < length {
        dst[off + i] := data[position + i];
      }
      position := position + length;
      assert dst[..] == old(dst[..off]) + old(data[position..position + length]) + old(dst[off + length..]);
    }

    /**
     * compact: moves the bytes between position and limit to the front; the
     * position then follows them and the limit returns to the capacity.
     */
    method Compact()
      requires Valid()
      modifies this, data
      ensures Valid()
      ensures position == old(limit - position) && limit == data.Length
      ensures data[..position] == old(data[position..limit])
    {
      var rest := data[position..limit];
      forall i | 0 <= i < |rest| {
        data[i] := rest[i];
      }
      position, limit := |rest|, data.Length;
      assert data[..position] == rest;
    }
  }
}
