/** SocketStream::read and write over a ByteArray (src/stream/stream.cpp). */
module SocketStream {
  import opened Basics
  import opened Codec
  import opened Blocks
  import opened ByteArray

  /** What read and write return; without iovecs they take the address of the first of none. */
  datatype Transfer = Count(n: int) | NoIovec

  /**
   * Receives into the array: the kernel fills the first `rt` bytes of the iovecs and the position
   * moves by `rt`. The flat buffer ends up exactly as if the bytes had been written with `Write`,
   * and unlike after `Write` the cursor is always seated. `rt` and `received` are what recv
   * returns.
   */
  method ReadInto(ba: ByteArray, connected: bool, length: nat, rt: int, received: Bytes) returns (r: Transfer)
    requires ba.Valid() && (rt > 0 ==> |received| == rt <= length)
    modifies ba
    ensures ba.Valid() && ba.endian == old(ba.endian)
    ensures r == if !connected then Count(-1) else if length == 0 then NoIovec else Count(rt)
    ensures r == NoIovec || r.n <= 0 ==>
              old(ba.Contents()) <= ba.Contents() && ba.position == old(ba.position) && ba.size == old(ba.size)
    ensures r.Count? && r.n > 0 ==>
              && ba.position == old(ba.position) + rt && ba.Coherent()
              && ba.size == (if ba.position > old(ba.size) then ba.position else old(ba.size))
              && old(ba.capacity) <= ba.capacity && old(ba.Target()) + rt <= ba.capacity
    ensures r.Count? && r.n > 0 ==>
              ba.Contents() == Overwrite(old(ba.Contents()) + ba.Contents()[old(ba.capacity)..], old(ba.Target()), received)
  {
    if !connected {
      return Count(-1);
    }
    var iovs := ba.GetWriteBuffers(length);
    if length == 0 {
      return NoIovec;
    }
    if rt > 0 {
      OverwriteGrown(old(ba.Contents()), ba.Contents(), ba.Cursor(), received);
      ba.blocks := Scatter(iovs, ba.blocks, received);
      var _ := ba.SetPosition(ba.position + rt);
    }
    r := Count(rt);
  }

  /**
   * Receiving is writing: two arrays in the same state, one that receives bytes and one that is
   * written them, agree in position and size, on every byte there was and on every byte received.
   */
  method ReceiveIsWrite(a: ByteArray, b: ByteArray, length: nat, received: Bytes) returns (ghost kept: nat)
    requires a != b && a.Valid() && b.Valid() && 0 < |received| <= length
    requires a.baseSize == b.baseSize && a.blocks == b.blocks && a.capacity == b.capacity
    requires a.position == b.position && a.size == b.size && a.cur == b.cur && a.off == b.off && a.lag == b.lag
    modifies a, b
    ensures a.Valid() && b.Valid() && a.position == b.position && a.size == b.size
    ensures old(a.capacity) <= kept && old(a.Target()) + |received| <= kept <= a.capacity && kept <= b.capacity
    ensures a.Contents()[..kept] == b.Contents()[..kept]
  {
    ghost var before, target := a.Contents(), a.Target();
    kept := if a.capacity > target + |received| then a.capacity else target + |received|;
    var r := ReadInto(a, true, length, |received|, received);
    b.Write(received);
    SamePrefix(before, a.Contents()[|before|..], b.Contents()[|before|..], target, received, kept);
  }

  lemma SamePrefix(s: Bytes, u: Bytes, v: Bytes, p: nat, d: Bytes, kept: nat)
    requires p + |d| <= kept && |s| <= kept <= |s + u| && kept <= |s + v| && p <= |s|
    requires kept == |s| || kept == p + |d|
    ensures Overwrite(s + u, p, d)[..kept] == Overwrite(s + v, p, d)[..kept]
  {
  }

  /** Sends from the array: the kernel takes the first `rt` bytes of the iovecs and the position moves past them. */
  method WriteFrom(ba: ByteArray, connected: bool, length: nat, rt: int) returns (r: Transfer, sent: Bytes)
    requires ba.Valid() && rt <= length && rt <= ba.size - ba.position
    modifies ba
    ensures ba.Valid() && ba.Contents() == old(ba.Contents()) && ba.size == old(ba.size)
    ensures r == if !connected then Count(-1) else if length == 0 || old(ba.position) == ba.size then NoIovec else Count(rt)
    ensures r == NoIovec || r.n <= 0 ==> sent == [] && ba.position == old(ba.position)
    ensures r.Count? && r.n > 0 ==>
              && ba.position == old(ba.position) + rt && ba.Coherent() && old(ba.Cursor()) + rt <= ba.capacity
              && sent == ba.Contents()[old(ba.Cursor())..old(ba.Cursor()) + rt]
  {
    sent := [];
    if !connected {
      return Count(-1), [];
    }
    var n, iovs := ba.GetReadBuffers(length);
    if n == 0 {
      return NoIovec, [];
    }
    if rt > 0 {
      sent := Gather(iovs, ba.blocks)[..rt];
      var _ := ba.SetPosition(ba.position + rt);
    }
    r := Count(rt);
  }

  /**
   * A write that ends on an interior block boundary leaves the cursor behind, and the next write
   * overwrites it: blocks of two bytes holding 1 2 3 4, rewritten by 5 6 and then 7 8 from the
   * start, hold 7 8 3 4 and not 5 6 7 8.
   */
  method InteriorBoundaryWrite() returns (r: ReadResult)
    ensures r == Data([7, 8, 3, 4])
  {
    var ba := FourBytes();
    var ok := ba.SetPosition(0);
    Rewrite(ba);
    ok := ba.SetPosition(0);
    ba.CursorBehind();
    assert [7, 8, 3, 4][0..4] == [7, 8, 3, 4];
    r := ba.Read(4);
  }

  method FourBytes() returns (ba: ByteArray)
    ensures fresh(ba) && ba.Valid() && ba.baseSize == 2 && ba.capacity == ba.size == 4
    ensures ba.Contents() == [1, 2, 3, 4]
  {
    ba := new ByteArray(2);
    ba.CursorBehind();
    ba.Write([1, 2, 3, 4]);
    assert ba.capacity == 4;
  }

  method Rewrite(ba: ByteArray)
    requires ba.Valid() && ba.Coherent() && ba.position == 0 && ba.baseSize == 2 && ba.capacity == ba.size == 4
    requires ba.Contents() == [1, 2, 3, 4]
    modifies ba
    ensures ba.Valid() && ba.capacity == ba.size == 4 && ba.Contents() == [7, 8, 3, 4]
  {
    ba.CursorBehind();
    ba.Write([5, 6]);
    assert ba.Contents() == [5, 6, 3, 4];
    assert ba.position == 2 && ba.off == 0 && ba.cur == 0 by { ba.CursorBehind(); }
    ba.Write([7, 8]);
  }
}
