/** The receive ring of CppNetEngine/NetReceiveBuffer.cpp as a byte FIFO. */
module NetReceiveBuffer {

  type Byte = b: int | 0 <= b < 256

  /** Position `x` on a ring of `n` cells, for `x` below two turns. */
  function Wrap(n: int, x: int): (r: int)
    requires 0 <= x < 2 * n
    ensures 0 <= r < n && (r == x || r == x - n)
  {
    if x < n then x else x - n
  }

  lemma ModIsWrap(n: int, x: int)
    requires 0 <= x < 2 * n
    ensures x % n == Wrap(n, x)
  {
    if x >= n {
      assert x == n + (x - n);
      assert x % n == (x - n) % n;
    }
  }

  /** The number of unread bytes. */
  function Used(n: int, r: int, w: int): (u: int)
    requires 0 <= r < n && 0 <= w < n
    ensures 0 <= u < n && Wrap(n, r + u) == w
  {
    if r > w then n - (r - w) else w - r
  }

  /** The unread bytes, oldest first. */
  function Unread(cells: seq<Byte>, n: int, r: int, w: int): (q: seq<Byte>)
    requires 0 <= r < n <= |cells| && 0 <= w < n
    ensures |q| == Used(n, r, w)
    ensures forall i :: 0 <= i < |q| ==> q[i] == cells[Wrap(n, r + i)]
  {
    if r > w then cells[r..n] + cells[..w] else cells[r..w]
  }

  /** Moving the read position by `k` drops the `k` oldest bytes. */
  lemma DropUnread(cells: seq<Byte>, n: int, r: int, w: int, k: int)
    requires 0 <= r < n <= |cells| && 0 <= w < n && 0 <= k <= Used(n, r, w)
    ensures Used(n, Wrap(n, r + k), w) == Used(n, r, w) - k
    ensures Unread(cells, n, Wrap(n, r + k), w) == Unread(cells, n, r, w)[k..]
  {
  }

  /** How far cell `c` lies past the write position. */
  function Offset(n: int, w: int, c: int): (o: int)
    requires 0 <= w < n && 0 <= c < n
    ensures 0 <= o < n && Wrap(n, w + o) == c
  {
    if c >= w then c - w else c - w + n
  }

  /** `data` laid out from the write position on, every other cell as it was. */
  ghost predicate Filled(cells: seq<Byte>, cells': seq<Byte>, n: int, w: int, data: seq<Byte>)
    requires n <= |cells| == |cells'| && 0 <= w < n
  {
    forall c :: 0 <= c < |cells| ==>
      cells'[c] == if c < n && Offset(n, w, c) < |data| then data[Offset(n, w, c)] else cells[c]
  }

  /** Filling free cells in write order and moving the write position appends. */
  lemma AppendUnread(cells: seq<Byte>, cells': seq<Byte>, n: int, r: int, w: int, data: seq<Byte>)
    requires 0 <= r < n <= |cells| == |cells'| && 0 <= w < n && |data| <= n - 1 - Used(n, r, w)
    requires Filled(cells, cells', n, w, data)
    ensures Used(n, r, Wrap(n, w + |data|)) == Used(n, r, w) + |data|
    ensures Unread(cells', n, r, Wrap(n, w + |data|)) == Unread(cells, n, r, w) + data
  {
    var u := Used(n, r, w);
    var q := Unread(cells', n, r, Wrap(n, w + |data|));
    forall i | 0 <= i < |q|
      ensures q[i] == (Unread(cells, n, r, w) + data)[i]
    {
      var c := Wrap(n, r + i);
      assert q[i] == cells'[c];
      assert Offset(n, w, c) == if i < u then n - u + i else i - u;
    }
  }

  class NetReceiveBuffer {
    const mMaxBufferSize: int
    var mReadPos: int
    var mWritePos: int
    const mpBuffer: array<Byte>

    ghost predicate Valid()
      reads this
    {
      && mMaxBufferSize >= 1 && mpBuffer.Length == mMaxBufferSize + 1
      && 0 <= mReadPos < mMaxBufferSize && 0 <= mWritePos < mMaxBufferSize
    }

    /** The abstract queue. */
    ghost function Contents(): (q: seq<Byte>)
      requires Valid()
      reads this, mpBuffer
    {
      Unread(mpBuffer[..], mMaxBufferSize, mReadPos, mWritePos)
    }

    constructor (maxSize: int)
      requires maxSize >= 1
      ensures Valid() && Contents() == [] && mMaxBufferSize == maxSize && fresh(mpBuffer)
      ensures mReadPos == 0 && mWritePos == 0
    {
      mMaxBufferSize := maxSize;
      mReadPos := 0;
      mWritePos := 0;
      mpBuffer := new Byte[maxSize + 1];
    }

    method Clear()
      requires Valid()
      modifies this
      ensures Valid() && Contents() == []
    {
      mReadPos := 0;
      mWritePos := 0;
    }

    predicate IsEmpty()
      requires Valid()
      reads this
      ensures IsEmpty() <==> Used(mMaxBufferSize, mReadPos, mWritePos) == 0
    {
      mReadPos == mWritePos
    }

    function GetFreeSize(): (f: int)
      requires Valid()
      reads this
      ensures f + Used(mMaxBufferSize, mReadPos, mWritePos) == mMaxBufferSize - 1 && f >= 0
    {
      if mReadPos > mWritePos then mReadPos - mWritePos - 1 else mMaxBufferSize - (mWritePos - mReadPos) - 1
    }

    function GetUseSize(): (u: int)
      requires Valid()
      reads this
      ensures u == Used(mMaxBufferSize, mReadPos, mWritePos)
    {
      if mReadPos > mWritePos then mMaxBufferSize - (mReadPos - mWritePos) else mWritePos - mReadPos
    }

    /** The free cells from the write position on, up to the end of the array or to the
        cell kept free; none of them wraps, and there is one if any cell is free. */
    function GetLinearWriteSize(): (s: int)
      requires Valid()
      reads this
      ensures 0 <= s <= GetFreeSize() && mWritePos + s <= mMaxBufferSize
      ensures s < GetFreeSize() ==> mWritePos + s == mMaxBufferSize
      ensures GetFreeSize() > 0 ==> s > 0
    {
      if mReadPos > mWritePos then mReadPos - mWritePos - 1
      else mMaxBufferSize - mWritePos - (if mReadPos == 0 then 1 else 0)
    }

    /** The unread bytes from the read position on that do not wrap. */
    function GetLinearReadSize(): (s: int)
      requires Valid()
      reads this
      ensures 0 <= s <= GetUseSize() && mReadPos + s <= mMaxBufferSize
      ensures s < GetUseSize() ==> mReadPos + s == mMaxBufferSize
    {
      if mReadPos > mWritePos then mMaxBufferSize - mReadPos else mWritePos - mReadPos
    }

    method MoveReadPos(size: int)
      requires Valid() && 0 <= size <= GetUseSize()
      modifies this`mReadPos
      ensures Valid() && Contents() == old(Contents())[size..]
    {
      ModIsWrap(mMaxBufferSize, mReadPos + size);
      DropUnread(mpBuffer[..], mMaxBufferSize, mReadPos, mWritePos, size);
      mReadPos := (mReadPos + size) % mMaxBufferSize;
    }

    method MoveWritePos(size: int)
      requires Valid() && 0 <= size <= GetFreeSize()
      modifies this`mWritePos
      ensures Valid() && mWritePos == Wrap(mMaxBufferSize, old(mWritePos) + size)
    {
      ModIsWrap(mMaxBufferSize, mWritePos + size);
      mWritePos := (mWritePos + size) % mMaxBufferSize;
    }

    /** std::copy_n into the ring's array: cells outside the target stay as they are. */
    method CopyIn(data: seq<Byte>, from: int, size: int, at: int)
      requires 0 <= from <= from + size <= |data| && 0 <= at <= at + size <= mpBuffer.Length
      modifies mpBuffer
      ensures forall c :: 0 <= c < mpBuffer.Length ==>
        mpBuffer[c] == if at <= c < at + size then data[from + (c - at)] else old(mpBuffer[c])
    {
      var i := 0;
      while i < size
        invariant 0 <= i <= size
        invariant forall c :: 0 <= c < mpBuffer.Length ==>
          mpBuffer[c] == if at <= c < at + i then data[from + (c - at)] else old(mpBuffer[c])
      {
        mpBuffer[at + i] := data[from + i];
        i := i + 1;
      }
    }

    /** The copy of Write, in one piece or around the end of the array. */
    method Place(data: seq<Byte>, n: int)
      requires Valid() && 0 < n <= |data| && n <= GetFreeSize()
      modifies mpBuffer
      ensures Filled(old(mpBuffer[..]), mpBuffer[..], mMaxBufferSize, mWritePos, data[..n])
    {
      if n + mWritePos < mMaxBufferSize {
        CopyIn(data, 0, n, mWritePos);
      } else {
        var linearSize := GetLinearWriteSize();
        CopyIn(data, 0, linearSize, mWritePos);
        var remainSize := n - linearSize;
        CopyIn(data, linearSize, remainSize, 0);
      }
    }

    /** Appends as many bytes as fit, overwriting no unread byte and no cell at or past
        the capacity. */
    method Write(data: seq<Byte>, size: int) returns (n: int)
      requires Valid() && 0 <= size <= |data|
      modifies this`mWritePos, mpBuffer
      ensures Valid()
      ensures n == if size <= old(GetFreeSize()) then size else old(GetFreeSize())
      ensures Contents() == old(Contents()) + data[..n]
      ensures mpBuffer[mMaxBufferSize] == old(mpBuffer[mMaxBufferSize])
    {
      n := if size <= GetFreeSize() then size else GetFreeSize();
      if n == 0 {
        return;
      }
      Place(data, n);
      assert mpBuffer[..][mMaxBufferSize] == old(mpBuffer[..])[mMaxBufferSize];
      AppendUnread(old(mpBuffer[..]), mpBuffer[..], mMaxBufferSize, mReadPos, mWritePos, data[..n]);
      MoveWritePos(n);
    }

    /** std::copy_n out of the ring's array. */
    method CopyOut(from: int, size: int, dest: array<Byte>, at: int)
      requires 0 <= from <= from + size <= mpBuffer.Length && 0 <= at <= at + size <= dest.Length && dest != mpBuffer
      modifies dest
      ensures forall c :: 0 <= c < dest.Length ==>
        dest[c] == if at <= c < at + size then mpBuffer[from + (c - at)] else old(dest[c])
    {
      var i := 0;
      while i < size
        invariant 0 <= i <= size
        invariant forall c :: 0 <= c < dest.Length ==>
          dest[c] == if at <= c < at + i then mpBuffer[from + (c - at)] else old(dest[c])
      {
        dest[at + i] := mpBuffer[from + i];
        i := i + 1;
      }
    }

    /** The copy of Peek and Read, in one piece or around the end of the array. */
    method Fetch(dest: array<Byte>, n: int)
      requires Valid() && 0 < n <= dest.Length && n <= GetUseSize() && dest != mpBuffer
      modifies dest
      ensures dest[..n] == Contents()[..n] && dest[n..] == old(dest[n..])
    {
      if n + mReadPos > mMaxBufferSize {
        var linearSize := GetLinearReadSize();
        CopyOut(mReadPos, linearSize, dest, 0);
        var remainSize := n - linearSize;
        CopyOut(0, remainSize, dest, linearSize);
      } else {
        CopyOut(mReadPos, n, dest, 0);
      }
    }

    /** Copies the oldest bytes out and leaves them in the ring. */
    method Peek(dest: array<Byte>, size: int) returns (n: int)
      requires Valid() && 0 <= size <= dest.Length && dest != mpBuffer
      modifies dest
      ensures n == if size <= GetUseSize() then size else GetUseSize()
      ensures dest[..n] == Contents()[..n] && dest[n..] == old(dest[n..])
    {
      n := if size <= GetUseSize() then size else GetUseSize();
      if n == 0 {
        return;
      }
      Fetch(dest, n);
    }

    /** Copies the oldest bytes out, as Peek does, and takes them out of the ring. */
    method Read(dest: array<Byte>, size: int) returns (n: int)
      requires Valid() && 0 <= size <= dest.Length && dest != mpBuffer
      modifies this`mReadPos, dest
      ensures Valid()
      ensures n == if size <= old(GetUseSize()) then size else old(GetUseSize())
      ensures dest[..n] == old(Contents())[..n] && dest[n..] == old(dest[n..])
      ensures Contents() == old(Contents())[n..]
    {
      n := if size <= GetUseSize() then size else GetUseSize();
      if n == 0 {
        return;
      }
      Fetch(dest, n);
      MoveReadPos(n);
    }
  }
}
