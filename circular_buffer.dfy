/** The recovery reservoir inside each advanced sink: a fixed-capacity byte
    ring with a write cursor, a read cursor and a stored-byte count. Writes are
    truncated to the free space, reads to the stored bytes, and both copy in
    at most two segments around the end of the backing array. */
module Ring {
  import opened Common

  /** Position p folded back once into 0..n-1 (p < 2n wherever it is used). */
  function Wrap(p: nat, n: nat): nat
  {
    if p < n then p else p - n
  }

  /** How many bytes a request for count bytes moves when limit bytes are available:
      none for a non-positive request, otherwise the request cut down to the limit. */
  function Clip(count: int, limit: nat): nat
  {
    if count <= 0 then 0 else Min(count, limit)
  }

  lemma WrapIsMod(p: nat, n: nat)
    requires 0 < n && p < 2 * n
    ensures Wrap(p, n) == p % n
  {
    if p < n {
      assert p == 0 * n + p;
    } else {
      assert p == 1 * n + (p - n);
    }
  }

  /** Advancing a cursor that sits b positions after r by k more positions
      lands where r advanced by b + k does. */
  lemma WrapAdvance(r: nat, b: nat, k: nat, n: nat)
    requires r < n && b + k <= n && Wrap(r + b, n) + k <= n
    ensures Wrap(Wrap(r + b, n) + k, n) == Wrap(r + b + k, n)
  {
  }

  class CircularBuffer {
    const buffer: array<byte>
    var writePosition: nat
    var readPosition: nat
    var byteCount: nat

    /** The stored bytes, oldest first. */
    ghost var Contents: seq<byte>
    ghost const Repr: set<object>

    ghost predicate Valid()
      reads this, Repr
    {
      Repr == {this, buffer} &&
      byteCount <= buffer.Length && |Contents| == byteCount &&
      (buffer.Length == 0 ==> readPosition == 0 && writePosition == 0) &&
      (buffer.Length > 0 ==>
         readPosition < buffer.Length &&
         writePosition == Wrap(readPosition + byteCount, buffer.Length)) &&
      forall i :: 0 <= i < byteCount ==> Contents[i] == buffer[Wrap(readPosition + i, buffer.Length)]
    }

    constructor (capacity: nat)
      ensures Valid() && fresh(Repr)
      ensures buffer.Length == capacity && Contents == []
      ensures readPosition == 0 && writePosition == 0 && byteCount == 0
    {
      buffer := new byte[capacity];
      writePosition, readPosition, byteCount := 0, 0, 0;
      Contents := [];
      Repr := {this, buffer};
    }

    /** The cursor invariant in the source's own terms. */
    lemma CursorsAgree()
      requires Valid() && buffer.Length > 0
      ensures writePosition == (readPosition + byteCount) % buffer.Length
      ensures readPosition < buffer.Length && byteCount <= buffer.Length
    {
      WrapIsMod(readPosition + byteCount, buffer.Length);
    }

    /** Stores data[offset..offset + count], cut down to the free space, after
        the stored bytes. Only the part that is copied has to lie inside data. */
    method Write(data: seq<byte>, offset: nat, count: int) returns (written: nat)
      requires Valid()
      requires offset <= |data| && offset + Clip(count, buffer.Length - byteCount) <= |data|
      modifies Repr
      ensures Valid()
      ensures written == Clip(count, buffer.Length - old(byteCount))
      ensures Contents == old(Contents) + data[offset..offset + written]
    {
      var limit := count;
      if limit > buffer.Length - byteCount {
        limit := buffer.Length - byteCount;
      }
      written := 0;
      while written < limit
        invariant Valid()
        invariant limit <= buffer.Length - old(byteCount) && limit <= count
        invariant limit > 0 ==> offset + limit <= |data|
        invariant limit <= 0 ==> written == 0
        invariant limit > 0 ==> written <= limit
        invariant byteCount == old(byteCount) + written
        invariant Contents == old(Contents) + data[offset..offset + written]
        decreases limit - written
      {
        var k := Min(limit - written, buffer.Length - writePosition);
        CopyIn(data, offset + written, k);
        written := written + k;
      }
    }

    /** One segment of Write: k bytes from data[from..] land at the write cursor,
        which must not run past the end of the backing array. */
    method CopyIn(data: seq<byte>, from: nat, k: nat)
      requires Valid() && from + k <= |data|
      requires 0 < k <= buffer.Length - writePosition && byteCount + k <= buffer.Length
      modifies Repr
      ensures Valid()
      ensures byteCount == old(byteCount) + k
      ensures Contents == old(Contents) + data[from..from + k]
    {
      var n := buffer.Length;
      ghost var r, b, w := readPosition, byteCount, writePosition;
      Store(data, from, k);
      ghost var c := Contents + data[from..from + k];
      forall i | 0 <= i < b + k
        ensures c[i] == buffer[Wrap(r + i, n)]
      {
        if i < b {
          assert !(w <= Wrap(r + i, n) < w + k);
        } else {
          assert Wrap(r + i, n) == w + (i - b);
        }
      }
      WrapIsMod(writePosition + k, n);
      WrapAdvance(r, b, k, n);
      writePosition := (writePosition + k) % n;
      Contents := c;
      byteCount := byteCount + k;
    }

    /** The array copy of CopyIn: data[from..from + k] lands at the write cursor. */
    method Store(data: seq<byte>, from: nat, k: nat)
      requires from + k <= |data| && writePosition + k <= buffer.Length
      modifies buffer
      ensures forall j :: 0 <= j < buffer.Length ==>
                buffer[j] == if writePosition <= j < writePosition + k then data[from + j - writePosition] else old(buffer[j])
    {
      forall j | 0 <= j < k {
        buffer[writePosition + j] := data[from + j];
      }
    }

    /** Moves the oldest min(count, stored) bytes into data[offset..], removing
        them from the ring. Only the part that is filled has to lie inside data. */
    method Read(data: array<byte>, offset: nat, count: int) returns (read: nat)
      requires Valid() && data !in Repr
      requires offset <= data.Length && offset + Clip(count, byteCount) <= data.Length
      modifies Repr, data
      ensures Valid()
      ensures read == Clip(count, old(byteCount))
      ensures data[offset..offset + read] == old(Contents)[..read]
      ensures Contents == old(Contents)[read..]
      ensures forall j :: 0 <= j < data.Length && !(offset <= j < offset + read) ==> data[j] == old(data[j])
    {
      var limit := Min(count, byteCount);
      read := 0;
      while read < limit
        invariant Valid()
        invariant limit <= old(byteCount) && limit <= count
        invariant limit > 0 ==> offset + limit <= data.Length
        invariant limit <= 0 ==> read == 0
        invariant limit > 0 ==> read <= limit
        invariant byteCount == old(byteCount) - read
        invariant Contents == old(Contents)[read..]
        invariant forall j :: 0 <= j < data.Length ==>
                    data[j] == if offset <= j < offset + read then old(Contents)[j - offset] else old(data[j])
        decreases limit - read
      {
        var k := Min(limit - read, buffer.Length - readPosition);
        CopyOut(data, offset + read, k);
        read := read + k;
      }
      assert forall j :: 0 <= j < read ==> data[offset..offset + read][j] == old(Contents)[..read][j];
    }

    /** One segment of Read: the k oldest bytes, which sit before the end of the
        backing array, go to data[at..at + k] and leave the ring. */
    method CopyOut(data: array<byte>, at: nat, k: nat)
      requires Valid() && data !in Repr && at + k <= data.Length
      requires 0 < k <= buffer.Length - readPosition && k <= byteCount
      modifies Repr, data
      ensures Valid()
      ensures byteCount == old(byteCount) - k
      ensures Contents == old(Contents)[k..]
      ensures forall j :: 0 <= j < data.Length ==>
                data[j] == if at <= j < at + k then old(Contents)[j - at] else old(data[j])
    {
      var n := buffer.Length;
      forall j | 0 <= j < k {
        data[at + j] := buffer[readPosition + j];
      }
      assert forall j :: 0 <= j < k ==> data[at + j] == Contents[j];
      WrapIsMod(readPosition + k, n);
      readPosition := (readPosition + k) % n;
      Contents := Contents[k..];
      byteCount := byteCount - k;
    }

    /** Empties the ring and resets both cursors. */
    method Clear()
      requires Valid()
      modifies this
      ensures Valid()
      ensures Contents == []
      ensures readPosition == 0 && writePosition == 0 && byteCount == 0
    {
      readPosition := 0;
      writePosition := 0;
      byteCount := 0;
      Contents := [];
    }

    /** The number of stored bytes. */
    function Count(): (n: nat)
      reads this, Repr
      requires Valid()
      ensures n == |Contents| && n <= buffer.Length
    {
      byteCount
    }
  }
}
