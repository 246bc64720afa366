/** The receive path of CppNetEngine/Receiver.cpp: the free space of the ring offered to
    the socket as one or two segments, and the region handed to the session when the
    receive completes.

    The socket is modelled by the bytes it delivers: it fills the segments in order. */
module Receiver {
  import opened NetReceiveBuffer

  /** A WSABUF: `len` cells of the ring's array from cell `start` on. */
  datatype Segment = Segment(start: int, len: int)

  /** `len` cells in a straight line. */
  function Line(start: int, len: nat): (c: seq<int>)
    ensures |c| == len && forall i :: 0 <= i < len ==> c[i] == start + i
  {
    seq(len, i => start + i)
  }

  /** `len` cells around a ring of `n`. */
  function Arc(n: int, start: int, len: nat): (c: seq<int>)
    requires 0 <= start < n && len <= n
    ensures |c| == len && forall i :: 0 <= i < len ==> c[i] == Wrap(n, start + i)
  {
    seq(len, i requires 0 <= i < len => Wrap(n, start + i))
  }

  /** The cells of a list of segments, in order. */
  function Cells(segments: seq<Segment>): seq<int>
  {
    if segments == [] then []
    else (if segments[0].len <= 0 then [] else Line(segments[0].start, segments[0].len)) + Cells(segments[1..])
  }

  /** The segments that Register builds from the linear and the remaining free size. */
  function Layout(w: int, linearSize: int, remainSize: int): seq<Segment>
  {
    if remainSize != 0 then [Segment(w, linearSize), Segment(0, remainSize)] else [Segment(w, linearSize)]
  }

  /** The free cells of a ring in the order in which they are written. */
  function FreeCells(n: int, r: int, w: int): seq<int>
    requires 0 <= r < n && 0 <= w < n
  {
    Arc(n, w, n - 1 - Used(n, r, w))
  }

  /** The unread cells of a ring in the order in which they are read. */
  function UnreadCells(n: int, r: int, w: int): seq<int>
    requires 0 <= r < n && 0 <= w < n
  {
    Arc(n, r, Used(n, r, w))
  }

  class Receiver {
    const ring: NetReceiveBuffer

    constructor (maxSize: int)
      requires maxSize >= 1
      ensures fresh(ring) && fresh(ring.mpBuffer) && ring.Valid() && ring.Contents() == []
      ensures ring.mMaxBufferSize == maxSize && ring.mReadPos == 0
    {
      ring := new NetReceiveBuffer(maxSize);
    }

    /** Offers the whole free space, in write order, and nothing else: no cell twice and
        no unread cell.  Without free space the session is disconnected instead. */
    method Register() returns (posted: bool, segments: seq<Segment>)
      requires ring.Valid()
      ensures posted <==> ring.GetFreeSize() > 0
      ensures posted ==> Cells(segments) == FreeCells(ring.mMaxBufferSize, ring.mReadPos, ring.mWritePos)
      ensures !posted ==> segments == []
    {
      var freeSize := ring.GetFreeSize();
      if freeSize == 0 {
        return false, [];
      }
      var linearSize := ring.GetLinearWriteSize();
      var remainSize := freeSize - linearSize;
      segments := [Segment(ring.mWritePos, linearSize)];
      if remainSize != 0 {
        segments := segments + [Segment(0, remainSize)];
      }
      assert segments == Layout(ring.mWritePos, linearSize, remainSize);
      LayoutCells(ring.mMaxBufferSize, ring.mReadPos, ring.mWritePos, linearSize);
      return true, segments;
    }

    /** The socket delivers `data` into posted segments, first to last. */
    method Deliver(segments: seq<Segment>, data: seq<Byte>)
      requires ring.Valid() && |data| <= ring.GetFreeSize()
      requires Cells(segments) == FreeCells(ring.mMaxBufferSize, ring.mReadPos, ring.mWritePos)
      modifies ring.mpBuffer
      ensures Filled(old(ring.mpBuffer[..]), ring.mpBuffer[..], ring.mMaxBufferSize, ring.mWritePos, data)
    {
      var cells := Cells(segments);
      var n, w := ring.mMaxBufferSize, ring.mWritePos;
      var i := 0;
      while i < |data|
        invariant 0 <= i <= |data|
        invariant Filled(old(ring.mpBuffer[..]), ring.mpBuffer[..], n, w, data[..i])
      {
        var c := cells[i];
        assert c == Wrap(n, w + i) && Offset(n, w, c) == i;
        ring.mpBuffer[c] := data[i];
        i := i + 1;
      }
      assert data[..i] == data;
    }

    /** A completed receive of `data` through posted segments, followed by the move of
        the write position, appends `data` to the queue, as Write of `data` does. */
    method Complete(segments: seq<Segment>, data: seq<Byte>)
      requires ring.Valid() && |data| <= ring.GetFreeSize()
      requires Cells(segments) == FreeCells(ring.mMaxBufferSize, ring.mReadPos, ring.mWritePos)
      modifies ring, ring.mpBuffer
      ensures ring.Valid() && ring.Contents() == old(ring.Contents()) + data
      ensures ring.mReadPos == old(ring.mReadPos)
    {
      Deliver(segments, data);
      AppendUnread(old(ring.mpBuffer[..]), ring.mpBuffer[..], ring.mMaxBufferSize, ring.mReadPos, ring.mWritePos, data);
      ring.MoveWritePos(|data|);
    }

    /** The bytes that Process hands to the session after a receive of `numOfBytes`. */
    method Handed(numOfBytes: nat) returns (bytes: seq<Byte>)
      requires ring.Valid() && ring.mReadPos + numOfBytes <= ring.mMaxBufferSize
      ensures |bytes| == numOfBytes
      ensures forall i :: 0 <= i < numOfBytes ==> bytes[i] == ring.mpBuffer[Presented(ring.mReadPos, numOfBytes)[i]]
      ensures numOfBytes <= ring.GetUseSize() ==> bytes == ring.Contents()[..numOfBytes]
    {
      bytes := ring.mpBuffer[ring.mReadPos..ring.mReadPos + numOfBytes];
    }
  }

  /** The two segments are the free cells: the linear part runs to the end of the array
      or to the last free cell, and what remains starts at cell 0. */
  lemma LayoutCells(n: int, r: int, w: int, linearSize: int)
    requires 0 <= r < n && 0 <= w < n
    requires var free := n - 1 - Used(n, r, w);
      0 < linearSize <= free && w + linearSize <= n && (linearSize < free ==> w + linearSize == n)
    ensures Cells(Layout(w, linearSize, n - 1 - Used(n, r, w) - linearSize)) == FreeCells(n, r, w)
  {
    var free := n - 1 - Used(n, r, w);
    var segments := Layout(w, linearSize, free - linearSize);
    assert segments[1..] == if linearSize < free then [Segment(0, free - linearSize)] else [];
    assert linearSize < free ==> Cells(segments[1..]) == Line(0, free - linearSize) by {
      assert [Segment(0, free - linearSize)][1..] == [];
    }
    assert Cells(segments) == Line(w, linearSize) + Cells(segments[1..]);
  }

  /** The offered cells are all different, all inside the ring's capacity, and none of
      them is unread; together with the unread cells they are all cells but one. */
  lemma FreeCellsAreSafe(n: int, r: int, w: int)
    requires 0 <= r < n && 0 <= w < n
    ensures var f, u := FreeCells(n, r, w), UnreadCells(n, r, w);
      && (forall i, j :: 0 <= i < j < |f| ==> f[i] != f[j])
      && (forall c :: c in f ==> 0 <= c < n && c !in u)
      && |f| + |u| == n - 1
  {
    var f, u := FreeCells(n, r, w), UnreadCells(n, r, w);
    forall i, j | 0 <= i < |f| && 0 <= j < |u|
      ensures f[i] != u[j]
    {
      assert f[i] == Wrap(n, w + i) && u[j] == Wrap(n, r + j);
    }
  }

  /** The cells that Process hands to the session: as many as the socket just delivered,
      in a straight line from the read position. */
  function Presented(r: int, numOfBytes: nat): seq<int>
  {
    Line(r, numOfBytes)
  }

  /** After a delivery of `numOfBytes`, Process hands the session exactly the unread
      bytes if and only if nothing was unread before and the delivered bytes do not run
      past the end of the ring. */
  lemma ProcessPresentsUnreadExactlyWhen(n: int, r: int, w: int, numOfBytes: nat)
    requires 0 <= r < n && 0 <= w < n && 0 < numOfBytes <= n - 1 - Used(n, r, w)
    ensures Presented(r, numOfBytes) == UnreadCells(n, r, Wrap(n, w + numOfBytes))
      <==> r == w && r + numOfBytes <= n
  {
    var p, u := Presented(r, numOfBytes), UnreadCells(n, r, Wrap(n, w + numOfBytes));
    assert |u| == Used(n, r, w) + numOfBytes;
    if |p| == |u| {
      assert p[numOfBytes - 1] == r + numOfBytes - 1 && u[numOfBytes - 1] == Wrap(n, r + numOfBytes - 1);
    }
  }

  /** Two deliveries into a new ring, with Register before each, the session consuming
      nothing of the first, as when it is less than a frame.  After the second the session
      is handed as many bytes as it brought, but the first ones: the same again, if they
      are equally long. */
  method SplitDelivery(a: seq<Byte>, b: seq<Byte>) returns (r: Receiver, handed: seq<Byte>)
    requires 0 < |a| && 0 < |b| && |a| + |b| <= 65534
    ensures r.ring.Valid() && r.ring.Contents() == a + b
    ensures handed == (a + b)[..|b|]
    ensures |a| == |b| ==> handed == a
  {
    r := new Receiver(65535);
    var posted, segments := r.Register();
    r.Complete(segments, a);
    posted, segments := r.Register();
    r.Complete(segments, b);
    handed := r.Handed(|b|);
  }
}
