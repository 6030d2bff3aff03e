/**
 Output buffers and the pool that recycles them.  A buffer is an array that grows when full; Reset
 keeps the array, so what it held stays there until it is overwritten.
 */
module Buffers {
  import opened OutputModel
  import opened PoolModel

  class Buffer {
    var data: array<Byte>
    var len: nat

    ghost predicate Valid()
      reads this
    {
      len <= data.Length
    }

    ghost function Contents(): (b: Bytes)
      requires Valid()
      reads this, data
      ensures |b| == len
    {
      data[..len]
    }

    constructor ()
      ensures Valid() && Contents() == [] && fresh(data)
    {
      data := new Byte[0];
      len := 0;
    }

    /** Appends, in place when there is room, else in a new array. */
    method Write(b: Bytes)
      requires Valid()
      modifies this, data
      ensures Valid() && Contents() == old(Contents()) + b
      ensures if old(len) + |b| <= old(data).Length then data == old(data) else fresh(data)
      ensures data.Length >= old(data).Length
    {
      var n := len + |b|;
      if n > data.Length {
        Grow(2 * data.Length + |b|);
      }
      ghost var before := data[..len];
      for i := 0 to |b|
        invariant data.Length >= n && data[..len + i] == before + b[..i]
        modifies data
      {
        data[len + i] := b[i];
        assert data[..len + i + 1] == data[..len + i] + [b[i]];
        assert b[..i + 1] == b[..i] + [b[i]];
      }
      len := n;
      assert b[..|b|] == b;
    }

    method Grow(capacity: nat)
      requires Valid() && data.Length <= capacity
      modifies `data
      ensures Valid() && fresh(data) && data.Length == capacity && Contents() == old(Contents())
    {
      var bigger := new Byte[capacity];
      for i := 0 to len
        invariant len <= data.Length && bigger[..i] == data[..i]
        modifies bigger
      {
        bigger[i] := data[i];
      }
      data := bigger;
    }

    method Reset()
      requires Valid()
      modifies `len
      ensures Valid() && Contents() == []
    {
      len := 0;
    }
  }

  class Pool {
    var free: set<Buffer>
    ghost var lent: set<Buffer>

    /** No buffer is both free and lent, free ones are empty, and no two share an array. */
    ghost predicate Valid()
      reads this, free, lent
    {
      && free !! lent
      && (forall b | b in free + lent :: b.Valid())
      && (forall b | b in free :: b.len == 0)
      && (forall b, b' | b in free + lent && b' in free + lent && b != b' :: b.data != b'.data)
    }

    constructor ()
      ensures Valid() && free == {} && lent == {}
    {
      free, lent := {}, {};
    }

    /** Any free buffer, or a new one. */
    method GetBuffer() returns (b: Buffer)
      requires Valid()
      modifies this
      ensures Valid() && b in lent && lent == old(lent) + {b} && b !in old(lent)
      ensures free <= old(free) && (b in old(free) || (fresh(b) && fresh(b.data)))
      ensures b.Contents() == []
    {
      if * {
        b := new Buffer();
      } else {
        if free == {} {
          b := new Buffer();
        } else {
          b :| b in free;
          free := free - {b};
        }
      }
      lent := lent + {b};
    }

    /** Takes a lent buffer back, unless it has grown too big to keep. */
    method PutBuffer(b: Buffer?)
      requires Valid() && (b != null ==> b in lent)
      modifies this
      modifies (if b == null then {} else {b})`len
      ensures Valid() && lent == old(lent) - {b}
      ensures free == if b != null && b.data.Length < MAX_BUFFER_SIZE then old(free) + {b} else old(free)
    {
      if b == null {
        return;
      }
      lent := lent - {b};
      if b.data.Length < MAX_BUFFER_SIZE {
        b.Reset();
        free := free + {b};
      }
    }

    /** The garbage collector may take free buffers away at any time. */
    method Drop(dropped: set<Buffer>)
      requires Valid()
      modifies `free
      ensures Valid() && free == old(free) - dropped
    {
      free := free - dropped;
    }

    /** Writing to one lent buffer leaves the pool sound and every other buffer's contents alone. */
    twostate lemma WriteIsPrivate(b: Buffer)
      requires old(Valid()) && unchanged(this) && b in lent
      requires b.Valid() && (b.data == old(b.data) || fresh(b.data))
      requires forall o | o in free + lent && o != b :: unchanged(o) && unchanged(o.data)
      ensures Valid()
      ensures forall o | o in free + lent && o != b :: o.Contents() == old(o.Contents())
    {
      forall o | o in free + lent && o != b
        ensures o.Valid() && o.data != b.data && o.Contents() == old(o.Contents())
      {
        assert old(o.Valid()) && o.data == old(o.data) && old(o.data) != old(b.data);
        assert o.data[..] == old(o.data[..]);
      }
    }
  }
}
